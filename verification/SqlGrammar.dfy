/**
 The language of the SQL parser, written down as a grammar: all the ways to
 spell a statement, with any blanks, any letter case and an optional semicolon.
 The parser accepts exactly these texts and reads each as what it spells.
 */
module SqlGrammar {
  import opened Records
  import opened SqlText
  import opened Decimals
  import opened Sql
  import opened SqlTokens

  // ------------------------------------------------------------------ INSERT

  /** The blanks of an INSERT, the spelling of its words and of its number, and its end. */
  datatype InsertSpelling = InsertSpelling(
    insert: string, gap1: string, into: string, gap2: string, users: string, gap3: string, values: string,
    gap4: string, gap5: string, gap6: string, gap7: string, number: string, gap8: string, close: Close)

  function InsertText(sp: InsertSpelling, name: string): string {
    sp.insert + IntoText(sp, name)
  }

  function IntoText(sp: InsertSpelling, name: string): string {
    sp.gap1 + (sp.into + TableText(sp, name))
  }

  function TableText(sp: InsertSpelling, name: string): string {
    sp.gap2 + (sp.users + ValuesText(sp, name))
  }

  function ValuesText(sp: InsertSpelling, name: string): string {
    sp.gap3 + (sp.values + ListText(sp, name))
  }

  function ListText(sp: InsertSpelling, name: string): string {
    sp.gap4 + ("(" + NameText(sp, name))
  }

  function NameText(sp: InsertSpelling, name: string): string {
    sp.gap5 + ("'" + (name + ("'" + CommaText(sp))))
  }

  function CommaText(sp: InsertSpelling): string {
    sp.gap6 + ("," + AgeText(sp))
  }

  function AgeText(sp: InsertSpelling): string {
    sp.gap7 + (sp.number + ParenText(sp))
  }

  function ParenText(sp: InsertSpelling): string {
    sp.gap8 + (")" + CloseText(sp.close))
  }

  /** sp spells the INSERT of a name and an age. */
  predicate SpellsInsert(sp: InsertSpelling, name: string, age: int) {
    SameWord(sp.insert, "INSERT") && SpellsInto(sp) && SpellsList(sp, name) && SpellsAge(sp, age)
  }

  predicate SpellsInto(sp: InsertSpelling) {
    && Gap(sp.gap1) && sp.gap1 != "" && SameWord(sp.into, "INTO")
    && Gap(sp.gap2) && sp.gap2 != "" && SameWord(sp.users, "users")
    && Gap(sp.gap3) && sp.gap3 != "" && SameWord(sp.values, "VALUES")
  }

  predicate SpellsList(sp: InsertSpelling, name: string) {
    Gap(sp.gap4) && Gap(sp.gap5) && Quotable(name) && Gap(sp.gap6)
  }

  predicate SpellsAge(sp: InsertSpelling, age: int) {
    Gap(sp.gap7) && IsNumber(sp.number, age) && Gap(sp.gap8) && IsClose(sp.close)
  }

  // ------------------------------------------------------------------ SELECT

  /** The value of a condition: a quoted text or a numeral. */
  datatype Value = Quoted(text: string) | Numeral(digits: string)

  function ValueText(v: Value, rest: string): string {
    match v
    case Quoted(s) => "'" + (s + ("'" + rest))
    case Numeral(n) => n + rest
  }

  /** WHERE with its column and its value; `before` stands between the table name and WHERE. */
  datatype WhereSpelling = WhereSpelling(
    before: Close, where: string, gap1: string, column: string, gap2: string, gap3: string, value: Value)

  /** The blanks of a SELECT, the spelling of its words, its condition if any, and its end. */
  datatype SelectSpelling = SelectSpelling(
    select: string, gap1: string, gap2: string, from: string, gap3: string, users: string,
    filter: Option<WhereSpelling>, close: Close)

  function SelectText(sp: SelectSpelling, c: Condition): string {
    sp.select + StarText(sp, FilterText(sp, OpOf(c)))
  }

  /** From the star to the table name, and whatever follows. */
  function StarText(sp: SelectSpelling, tail: string): string {
    sp.gap1 + ("*" + FromText(sp, tail))
  }

  function FromText(sp: SelectSpelling, tail: string): string {
    sp.gap2 + (sp.from + UsersText(sp, tail))
  }

  function UsersText(sp: SelectSpelling, tail: string): string {
    sp.gap3 + (sp.users + tail)
  }

  function FilterText(sp: SelectSpelling, op: Comparison): string {
    match sp.filter
    case None => CloseText(sp.close)
    case Some(x) => CloseText(x.before) + (x.where + ColumnText(x, op, sp.close))
  }

  function ColumnText(x: WhereSpelling, op: Comparison, close: Close): string {
    x.gap1 + (x.column + ComparisonText(x, op, close))
  }

  function ComparisonText(x: WhereSpelling, op: Comparison, close: Close): string {
    x.gap2 + (OpText(op) + OperandText(x, close))
  }

  function OperandText(x: WhereSpelling, close: Close): string {
    x.gap3 + ValueText(x.value, CloseText(close))
  }

  function OpOf(c: Condition): Comparison {
    match c
    case IdIs(op, _) => op
    case AgeIs(op, _) => op
    case _ => Eq
  }

  function ColumnFor(c: Condition): Column {
    match c
    case IdIs(_, _) => IdColumn
    case NameIs(_) => NameColumn
    case AgeIs(_, _) => AgeColumn
    case Everything => UnknownColumn
  }

  predicate SpellsValue(v: Value, c: Condition) {
    match c
    case Everything => false
    case NameIs(s) => v == Quoted(s) && Quotable(s)
    case IdIs(_, n) => v.Numeral? && IsNumber(v.digits, n)
    case AgeIs(_, n) => v.Numeral? && IsNumber(v.digits, n)
  }

  predicate SpellsWhere(x: WhereSpelling, c: Condition) {
    && IsClose(x.before) && CloseText(x.before) != "" && SameWord(x.where, "WHERE")
    && Gap(x.gap1) && x.gap1 != "" && ColumnOf(x.column) == ColumnFor(c) && c != Everything
    && Gap(x.gap2) && Gap(x.gap3) && SpellsValue(x.value, c)
  }

  predicate SpellsFilter(sp: SelectSpelling, c: Condition) {
    IsClose(sp.close) && if sp.filter.None? then c == Everything else SpellsWhere(sp.filter.value, c)
  }

  predicate SpellsStar(sp: SelectSpelling) {
    && Gap(sp.gap1) && Gap(sp.gap2) && SameWord(sp.from, "FROM")
    && Gap(sp.gap3) && sp.gap3 != "" && SameWord(sp.users, "users")
  }

  /** sp spells the SELECT with condition c. */
  predicate SpellsSelect(sp: SelectSpelling, c: Condition) {
    SameWord(sp.select, "SELECT") && SpellsStar(sp) && SpellsFilter(sp, c)
  }

  // ------------------------------------------------- every spelling of INSERT is read

  lemma Marks()
    ensures !IsSpace(')') && !IsSpace('(') && !IsSpace(',') && !IsSpace('*')
    ensures !IsWord(')') && !IsWord('(') && !IsWord(',') && !IsWord('*') && !IsWord('\'')
  {
  }

  lemma ParenPieces(sp: InsertSpelling, age: int)
    requires SpellsAge(sp, age)
    ensures ParenText(sp) == sp.gap8 + ([')'] + CloseText(sp.close)) && Breaks(ParenText(sp))
    ensures Gap(sp.gap8) && IsClose(sp.close) && CloseText(sp.close) == CloseText(sp.close) + ""
  {
    Marks();
    GapBreaks(sp.gap8, ")" + CloseText(sp.close));
    CloseAlone(sp.close);
  }

  lemma ParenReads(t: string, i: nat, sp: InsertSpelling, age: int) returns (e: nat)
    requires i <= |t| && t[i..] == ParenText(sp) && SpellsAge(sp, age)
    ensures i <= e <= |t| && CharAt(t, i, ')') == Some(e) && StatementEnd(t, e).0
  {
    hide *;
    Marks();
    ParenPieces(sp, age);
    CharRead(t, i, sp.gap8, ')', CloseText(sp.close));
    e := i + |sp.gap8| + 1;
    CloseRead(t, e, sp.close, "");
  }

  lemma AgeReads(t: string, i: nat, name: string, sp: InsertSpelling, age: int)
    requires i <= |t| && t[i..] == AgeText(sp) && SpellsAge(sp, age)
    ensures ParseAge(t, i, name) == InsertStatement(name, age)
  {
    hide ParenText, Gap, IsNumber, IsClose, Breaks, IntAt, CharAt, StatementEnd;
    var e, f := AgeTokens(t, i, sp, age);
  }

  lemma AgeTokens(t: string, i: nat, sp: InsertSpelling, age: int) returns (e: nat, f: nat)
    requires i <= |t| && t[i..] == AgeText(sp) && SpellsAge(sp, age)
    ensures i <= e <= f <= |t| && IntAt(t, i) == Some((age, e)) && CharAt(t, e, ')') == Some(f) && StatementEnd(t, f).0
  {
    hide *;
    AgePieces(sp, age);
    IntRead(t, i, sp.gap7, sp.number, age, ParenText(sp));
    e := i + |sp.gap7| + |sp.number|;
    f := ParenReads(t, e, sp, age);
  }

  lemma AgePieces(sp: InsertSpelling, age: int)
    requires SpellsAge(sp, age)
    ensures AgeText(sp) == sp.gap7 + (sp.number + ParenText(sp))
    ensures Gap(sp.gap7) && IsNumber(sp.number, age) && Breaks(ParenText(sp))
  {
    ParenPieces(sp, age);
  }

  lemma CommaReads(t: string, i: nat, sp: InsertSpelling, name: string, age: int) returns (e: nat)
    requires i <= |t| && t[i..] == CommaText(sp) && SpellsList(sp, name) && SpellsAge(sp, age)
    ensures i <= e <= |t| && CharAt(t, i, ',') == Some(e) && ParseAge(t, e, name) == InsertStatement(name, age)
  {
    Marks();
    hide AgeText, SpellsAge, Gap, Quotable, CharAt, ParseAge, IsSpace, IsWord;
    CharRead(t, i, sp.gap6, ',', AgeText(sp));
    e := i + |sp.gap6| + 1;
    AgeReads(t, e, name, sp, age);
  }

  lemma NameReads(t: string, i: nat, sp: InsertSpelling, name: string, age: int) returns (e: nat, f: nat)
    requires i <= |t| && t[i..] == NameText(sp, name) && SpellsList(sp, name) && SpellsAge(sp, age)
    ensures i <= e <= f <= |t| && StringAt(t, i, NAME_SIZE) == Some((name, e)) && CharAt(t, e, ',') == Some(f)
    ensures ParseAge(t, f, name) == InsertStatement(name, age)
  {
    hide CommaText, SpellsAge, Gap, Quotable, CharAt, ParseAge, StringAt;
    StringRead(t, i, sp.gap5, name, CommaText(sp));
    e := i + |sp.gap5| + |name| + 2;
    f := CommaReads(t, e, sp, name, age);
  }

  lemma ListReads(t: string, i: nat, sp: InsertSpelling, name: string, age: int)
    requires i <= |t| && t[i..] == ListText(sp, name) && SpellsList(sp, name) && SpellsAge(sp, age)
    ensures ParseValues(t, i) == InsertStatement(name, age)
  {
    Marks();
    hide NameText, SpellsAge, Gap, Quotable, CharAt, ParseAge, StringAt, IsSpace, IsWord;
    CharRead(t, i, sp.gap4, '(', NameText(sp, name));
    var e, f := NameReads(t, i + |sp.gap4| + 1, sp, name, age);
  }

  lemma ListBreaks(sp: InsertSpelling, name: string)
    requires SpellsList(sp, name)
    ensures Breaks(ListText(sp, name))
  {
    Marks();
    GapBreaks(sp.gap4, "(" + NameText(sp, name));
  }

  lemma KeywordLetters()
    ensures Letters("INSERT") && Letters("INTO") && Letters("VALUES") && Letters("SELECT") && Letters("FROM")
    ensures Letters("WHERE") && Letters("users") && Letters("id") && Letters("name") && Letters("age")
  {
  }

  /** The words of an INSERT and what follows each of them. */
  lemma IntoPieces(sp: InsertSpelling, name: string)
    requires SpellsInto(sp) && SpellsList(sp, name)
    ensures IntoText(sp, name) == sp.gap1 + (sp.into + TableText(sp, name))
    ensures Gap(sp.gap1) && SameWord(sp.into, "INTO") && Letters("INTO") && Breaks(TableText(sp, name))
    ensures TableText(sp, name) == sp.gap2 + (sp.users + ValuesText(sp, name))
    ensures Gap(sp.gap2) && SameWord(sp.users, "users") && Identifier(sp.users)
    ensures Breaks(ValuesText(sp, name))
    ensures ValuesText(sp, name) == sp.gap3 + (sp.values + ListText(sp, name))
    ensures Gap(sp.gap3) && SameWord(sp.values, "VALUES") && Letters("VALUES") && Breaks(ListText(sp, name))
  {
    KeywordLetters();
    SameLetters(sp.users, "users");
    GapBreaks(sp.gap2, sp.users + ValuesText(sp, name));
    GapBreaks(sp.gap3, sp.values + ListText(sp, name));
    ListBreaks(sp, name);
  }

  lemma ValuesReads(t: string, i: nat, sp: InsertSpelling, name: string, age: int) returns (e: nat)
    requires i <= |t| && t[i..] == ValuesText(sp, name) && SpellsInto(sp) && SpellsList(sp, name) && SpellsAge(sp, age)
    ensures e <= |t| && KeywordEnd(t, SpacesEnd(t, i), "VALUES") == Some(e) &&
            ParseValues(t, e) == InsertStatement(name, age)
  {
    hide *;
    IntoPieces(sp, name);
    NextKeywordRead(t, i, sp.gap3, sp.values, "VALUES", ListText(sp, name));
    e := i + |sp.gap3| + |sp.values|;
    ListReads(t, e, sp, name, age);
  }

  lemma TableReads(t: string, i: nat, sp: InsertSpelling, name: string, age: int) returns (e: nat, f: nat)
    requires i <= |t| && t[i..] == TableText(sp, name) && SpellsInto(sp) && SpellsList(sp, name) && SpellsAge(sp, age)
    ensures e <= f <= |t| && IdentifierAt(t, i, IDENTIFIER_SIZE) == Some((sp.users, e))
    ensures KeywordEnd(t, SpacesEnd(t, e), "VALUES") == Some(f) && ParseValues(t, f) == InsertStatement(name, age)
  {
    hide *;
    IntoPieces(sp, name);
    IdentifierRead(t, i, sp.gap2, sp.users, ValuesText(sp, name));
    e := i + |sp.gap2| + |sp.users|;
    f := ValuesReads(t, e, sp, name, age);
  }

  lemma IntoTokens(t: string, i: nat, sp: InsertSpelling, name: string, age: int) returns (d: nat, e: nat, f: nat)
    requires i <= |t| && t[i..] == IntoText(sp, name) && SpellsInto(sp) && SpellsList(sp, name) && SpellsAge(sp, age)
    ensures d <= e <= f <= |t| && KeywordEnd(t, SpacesEnd(t, i), "INTO") == Some(d)
    ensures IdentifierAt(t, d, IDENTIFIER_SIZE) == Some((sp.users, e)) && SameWord(sp.users, "users")
    ensures KeywordEnd(t, SpacesEnd(t, e), "VALUES") == Some(f) && ParseValues(t, f) == InsertStatement(name, age)
  {
    hide *;
    IntoPieces(sp, name);
    NextKeywordRead(t, i, sp.gap1, sp.into, "INTO", TableText(sp, name));
    d := i + |sp.gap1| + |sp.into|;
    e, f := TableReads(t, d, sp, name, age);
  }

  lemma IntoReads(t: string, i: nat, sp: InsertSpelling, name: string, age: int)
    requires i <= |t| && t[i..] == IntoText(sp, name) && SpellsInto(sp) && SpellsList(sp, name) && SpellsAge(sp, age)
    ensures ParseInsert(t, i) == InsertStatement(name, age)
  {
    hide IntoText, SpellsInto, SpellsAge, SpellsList, SameWord, KeywordEnd, SpacesEnd, ParseValues, IdentifierAt;
    var d, e, f := IntoTokens(t, i, sp, name, age);
  }

  /** A text whose first word is INSERT or SELECT is read as such a statement. */
  lemma FirstWord(t: string, w: string, word: string, rest: string)
    requires t == w + rest && SameWord(w, word) && (word == "INSERT" || word == "SELECT") && Breaks(rest)
    ensures KeywordEnd(t, 0, word) == Some(6) && t[6..] == rest
    ensures SpacesEnd(t, 0) == 0 && KeywordEnd(t, 0, "EXIT").None? && KeywordEnd(t, 0, "QUIT").None?
    ensures word == "SELECT" ==> KeywordEnd(t, 0, "INSERT").None?
  {
    assert t[0..] == w + rest;
    KeywordRead(t, 0, w, word, rest);
    assert t[0] == w[0] && Lower(w[0]) == Lower(word[0]);
    assert t[0..4][0] == t[0] && t[0..6][0] == t[0];
  }

  /** Every spelling of an INSERT is read as that INSERT. */
  lemma InsertReads(sp: InsertSpelling, name: string, age: int)
    requires SpellsInsert(sp, name, age)
    ensures ParseStatement(InsertText(sp, name)) == InsertStatement(name, age)
  {
    var t := InsertText(sp, name);
    GapBreaks(sp.gap1, sp.into + TableText(sp, name));
    hide SpellsInto, SpellsAge, SpellsList, IntoText, SameWord, KeywordEnd, SpacesEnd, ParseInsert, Breaks;
    FirstWord(t, sp.insert, "INSERT", IntoText(sp, name));
    IntoReads(t, 6, sp, name, age);
  }

  // ------------------------------------------------- every spelling of SELECT is read

  lemma NumeralReads(t: string, i: nat, g: string, n: string, v: int, close: Close) returns (e: nat)
    requires i <= |t| && t[i..] == g + (n + CloseText(close)) && Gap(g) && IsNumber(n, v) && IsClose(close)
    ensures i <= e <= |t| && IntAt(t, i) == Some((v, e)) && StatementEnd(t, e).0
  {
    hide *;
    CloseAlone(close);
    IntRead(t, i, g, n, v, CloseText(close));
    e := i + |g| + |n|;
    CloseRead(t, e, close, "");
  }

  lemma QuotedReads(t: string, i: nat, g: string, s: string, close: Close) returns (e: nat)
    requires i <= |t| && t[i..] == g + ("'" + (s + ("'" + CloseText(close)))) && Gap(g) && Quotable(s) && IsClose(close)
    ensures i <= e <= |t| && StringAt(t, i, NAME_SIZE) == Some((s, e)) && StatementEnd(t, e).0
  {
    hide *;
    CloseAlone(close);
    StringRead(t, i, g, s, CloseText(close));
    e := i + |g| + |s| + 2;
    CloseRead(t, e, close, "");
  }

  lemma OperandReads(t: string, i: nat, x: WhereSpelling, c: Condition, close: Close)
    requires i <= |t| && t[i..] == OperandText(x, close) && SpellsWhere(x, c) && IsClose(close)
    ensures ParseCondition(t, i, ColumnFor(c), OpOf(c)) == SelectStatement(c)
  {
    hide Gap, IsNumber, Quotable, IsClose, CloseText, SameWord, ColumnOf, IntAt, StringAt, StatementEnd;
    match c {
      case IdIs(op, n) => var e := NumeralReads(t, i, x.gap3, x.value.digits, n, close);
      case AgeIs(op, n) => var e := NumeralReads(t, i, x.gap3, x.value.digits, n, close);
      case NameIs(s) => var e := QuotedReads(t, i, x.gap3, s, close);
    }
  }

  lemma OperandStarts(x: WhereSpelling, c: Condition, close: Close)
    requires SpellsWhere(x, c)
    ensures At(OperandText(x, close), 0) != '='
  {
    var v := ValueText(x.value, CloseText(close));
    assert v != "" && v[0] != '=' by {
      if x.value.Numeral? {
        assert IsNumber(x.value.digits, if c.IdIs? then c.id else c.age);
        assert v[0] == x.value.digits[0];
      }
    }
    assert x.gap3 != "" ==> (x.gap3 + v)[0] == x.gap3[0];
    assert x.gap3 == "" ==> x.gap3 + v == v;
  }

  /** A column name is a word of letters. */
  lemma ColumnLetters(word: string)
    requires ColumnOf(word) != UnknownColumn
    ensures Letters(word) && |word| < IDENTIFIER_SIZE
  {
    KeywordLetters();
    if SameWord(word, "id") {
      SameLetters(word, "id");
    } else if SameWord(word, "name") {
      SameLetters(word, "name");
    } else {
      SameLetters(word, "age");
    }
  }

  lemma OpBreaks(op: Comparison, rest: string)
    ensures Breaks(OpText(op) + rest)
  {
    assert (OpText(op) + rest)[0] == OpText(op)[0];
  }

  lemma ColumnPieces(x: WhereSpelling, c: Condition, close: Close)
    requires SpellsWhere(x, c)
    ensures ColumnText(x, OpOf(c), close) == x.gap1 + (x.column + ComparisonText(x, OpOf(c), close))
    ensures Gap(x.gap1) && Identifier(x.column) &&
            Breaks(ComparisonText(x, OpOf(c), close))
    ensures ColumnOf(x.column) == ColumnFor(c) && Breaks(ColumnText(x, OpOf(c), close))
    ensures ComparisonText(x, OpOf(c), close) == x.gap2 + (OpText(OpOf(c)) + OperandText(x, close))
    ensures Gap(x.gap2) && At(OperandText(x, close), 0) != '='
  {
    ColumnLetters(x.column);
    OpBreaks(OpOf(c), OperandText(x, close));
    GapBreaks(x.gap2, OpText(OpOf(c)) + OperandText(x, close));
    GapBreaks(x.gap1, x.column + ComparisonText(x, OpOf(c), close));
    OperandStarts(x, c, close);
  }

  lemma ColumnTokens(t: string, i: nat, x: WhereSpelling, c: Condition, close: Close) returns (d: nat, e: nat)
    requires i <= |t| && t[i..] == ColumnText(x, OpOf(c), close) && SpellsWhere(x, c) && IsClose(close)
    ensures d <= e <= |t| && IdentifierAt(t, i, IDENTIFIER_SIZE) == Some((x.column, d)) &&
            ColumnOf(x.column) == ColumnFor(c)
    ensures ComparisonAt(t, d) == Some((OpOf(c), e))
    ensures ParseCondition(t, e, ColumnFor(c), OpOf(c)) == SelectStatement(c)
  {
    hide *;
    ColumnPieces(x, c, close);
    IdentifierRead(t, i, x.gap1, x.column, ComparisonText(x, OpOf(c), close));
    d := i + |x.gap1| + |x.column|;
    ComparisonRead(t, d, x.gap2, OpOf(c), OperandText(x, close));
    e := d + |x.gap2| + |OpText(OpOf(c))|;
    OperandReads(t, e, x, c, close);
  }

  lemma ColumnReads(t: string, i: nat, x: WhereSpelling, c: Condition, close: Close)
    requires i <= |t| && t[i..] == ColumnText(x, OpOf(c), close) && SpellsWhere(x, c) && IsClose(close)
    ensures ParseWhere(t, i) == SelectStatement(c)
  {
    hide ColumnText, SpellsWhere, IsClose, IdentifierAt, ComparisonAt, ParseCondition, ColumnOf, ColumnFor, OpOf;
    var d, e := ColumnTokens(t, i, x, c, close);
  }

  lemma WherePieces(x: WhereSpelling, c: Condition, close: Close)
    requires SpellsWhere(x, c)
    ensures IsClose(x.before) && SameWord(x.where, "WHERE") && Breaks(ColumnText(x, OpOf(c), close))
    ensures var tail := x.where + ColumnText(x, OpOf(c), close); tail != "" && IsAlpha(tail[0])
  {
    KeywordLetters();
    SameLetters(x.where, "WHERE");
    ColumnPieces(x, c, close);
    assert (x.where + ColumnText(x, OpOf(c), close))[0] == x.where[0];
  }

  lemma WhereReads(t: string, i: nat, x: WhereSpelling, c: Condition, close: Close) returns (d: nat, e: nat)
    requires i <= |t| && t[i..] == CloseText(x.before) + (x.where + ColumnText(x, OpOf(c), close))
    requires SpellsWhere(x, c) && IsClose(close)
    ensures d <= e <= |t| && StatementEnd(t, i) == (false, d) && KeywordEnd(t, d, "WHERE") == Some(e)
    ensures ParseWhere(t, e) == SelectStatement(c)
  {
    hide *;
    WherePieces(x, c, close);
    CloseRead(t, i, x.before, x.where + ColumnText(x, OpOf(c), close));
    d := i + |CloseText(x.before)|;
    KeywordRead(t, d, x.where, "WHERE", ColumnText(x, OpOf(c), close));
    e := d + |x.where|;
    ColumnReads(t, e, x, c, close);
  }

  lemma FilterReads(t: string, i: nat, sp: SelectSpelling, c: Condition)
    requires i <= |t| && t[i..] == FilterText(sp, OpOf(c)) && SpellsFilter(sp, c)
    ensures ParseFilter(t, i) == SelectStatement(c)
  {
    BlanksSkipped(t, i);
    hide CloseText, ColumnText, SpellsWhere, IsClose, StatementEnd, SpacesEnd, KeywordEnd, ParseWhere, OpOf;
    if sp.filter.None? {
      CloseAlone(sp.close);
      CloseRead(t, i, sp.close, "");
    } else {
      var d, e := WhereReads(t, i, sp.filter.value, c, sp.close);
    }
  }

  lemma FilterBreaks(sp: SelectSpelling, c: Condition)
    requires SpellsFilter(sp, c)
    ensures Breaks(FilterText(sp, OpOf(c)))
  {
    if sp.filter.None? {
      CloseAlone(sp.close);
    } else {
      CloseBreaks(sp.filter.value.before, sp.filter.value.where + ColumnText(sp.filter.value, OpOf(c), sp.close));
    }
  }

  /** The words of a SELECT and what follows each of them. */
  lemma StarPieces(sp: SelectSpelling, tail: string)
    requires SpellsStar(sp)
    ensures StarText(sp, tail) == sp.gap1 + (['*'] + FromText(sp, tail))
    ensures Gap(sp.gap1) && Breaks(StarText(sp, tail))
    ensures FromText(sp, tail) == sp.gap2 + (sp.from + UsersText(sp, tail))
    ensures Gap(sp.gap2) && SameWord(sp.from, "FROM") && Letters("FROM") && Breaks(UsersText(sp, tail))
    ensures UsersText(sp, tail) == sp.gap3 + (sp.users + tail)
    ensures Gap(sp.gap3) && SameWord(sp.users, "users") && Identifier(sp.users)
  {
    Marks();
    KeywordLetters();
    SameLetters(sp.users, "users");
    GapBreaks(sp.gap1, "*" + FromText(sp, tail));
    GapBreaks(sp.gap3, sp.users + tail);
  }

  lemma StarTokens(t: string, i: nat, sp: SelectSpelling, tail: string) returns (d: nat, e: nat, f: nat)
    requires i <= |t| && t[i..] == StarText(sp, tail) && SpellsStar(sp) && Breaks(tail)
    ensures d <= e <= f <= |t| && CharAt(t, i, '*') == Some(d) && KeywordEnd(t, SpacesEnd(t, d), "FROM") == Some(e)
    ensures IdentifierAt(t, e, IDENTIFIER_SIZE) == Some((sp.users, f)) && SameWord(sp.users, "users")
    ensures t[f..] == tail
  {
    hide *;
    Marks();
    StarPieces(sp, tail);
    CharRead(t, i, sp.gap1, '*', FromText(sp, tail));
    d := i + |sp.gap1| + 1;
    NextKeywordRead(t, d, sp.gap2, sp.from, "FROM", UsersText(sp, tail));
    e := d + |sp.gap2| + |sp.from|;
    IdentifierRead(t, e, sp.gap3, sp.users, tail);
    f := e + |sp.gap3| + |sp.users|;
  }

  /** The star is looked for after the blanks, which makes no difference. */
  lemma StarAt(t: string, i: nat)
    requires i <= |t|
    ensures CharAt(t, SpacesEnd(t, i), '*') == CharAt(t, i, '*')
  {
  }

  lemma HeadReads(t: string, i: nat, sp: SelectSpelling, tail: string) returns (f: nat)
    requires i <= |t| && t[i..] == StarText(sp, tail) && SpellsStar(sp) && Breaks(tail)
    ensures f <= |t| && SelectHead(t, i) == Go(f) && t[f..] == tail
  {
    hide StarText, SpellsStar, SameWord, KeywordEnd, SpacesEnd, IdentifierAt, CharAt, Breaks;
    StarAt(t, i);
    var d, e;
    d, e, f := StarTokens(t, i, sp, tail);
  }

  lemma StarReads(t: string, i: nat, sp: SelectSpelling, c: Condition)
    requires i <= |t| && t[i..] == StarText(sp, FilterText(sp, OpOf(c))) && SpellsStar(sp) && SpellsFilter(sp, c)
    ensures ParseSelect(t, i) == SelectStatement(c)
  {
    hide StarText, SpellsStar, SpellsFilter, SelectHead, ParseFilter, OpOf, FilterText, Breaks;
    FilterBreaks(sp, c);
    var f := HeadReads(t, i, sp, FilterText(sp, OpOf(c)));
    FilterReads(t, f, sp, c);
  }

  /** Every spelling of a SELECT is read as that SELECT. */
  lemma SelectReads(sp: SelectSpelling, c: Condition)
    requires SpellsSelect(sp, c)
    ensures ParseStatement(SelectText(sp, c)) == SelectStatement(c)
  {
    var t, tail := SelectText(sp, c), FilterText(sp, OpOf(c));
    hide SpellsStar, SpellsFilter, StarText, SameWord, KeywordEnd, SpacesEnd, ParseSelect, ParseInsert, Breaks, OpOf;
    hide FilterText;
    StarPieces(sp, tail);
    FirstWord(t, sp.select, "SELECT", StarText(sp, tail));
    StarReads(t, 6, sp, c);
  }

  // ----------------------------------------------- whatever is read as INSERT spells it

  lemma AgeParsed(t: string, i: nat, name: string, age: int) returns (e: nat, f: nat)
    requires i <= |t| && ParseAge(t, i, name).InsertStatement? && ParseAge(t, i, name).age == age
    ensures i <= e <= f <= |t| && IntAt(t, i) == Some((age, e)) && CharAt(t, e, ')') == Some(f) && StatementEnd(t, f).0
    ensures ParseAge(t, i, name).name == name
  {
    hide IntAt, CharAt, StatementEnd;
    e := IntAt(t, i).value.1;
    f := CharAt(t, e, ')').value;
  }

  /** The end of an INSERT, from its number on; the rest of the spelling is taken over from sp0. */
  lemma AgeBack(t: string, i: nat, name: string, age: int, sp0: InsertSpelling) returns (sp: InsertSpelling)
    requires i <= |t| && ParseAge(t, i, name).InsertStatement? && ParseAge(t, i, name).age == age
    ensures sp == sp0.(gap7 := sp.gap7, number := sp.number, gap8 := sp.gap8, close := sp.close)
    ensures t[i..] == AgeText(sp) && SpellsAge(sp, age)
  {
    hide Gap, IsNumber, IsClose, CloseText, IntAt, CharAt, StatementEnd, ParseAge;
    var e, f := AgeParsed(t, i, name, age);
    var g, n := IntBack(t, i, age, e);
    var h := CharBack(t, e, ')', f);
    var c := CloseBack(t, f);
    sp := sp0.(gap7 := g, number := n, gap8 := h, close := c);
  }

  lemma ListParsed(t: string, i: nat, name: string, age: int) returns (d: nat, e: nat, f: nat)
    requires i <= |t| && ParseValues(t, i) == InsertStatement(name, age)
    ensures i <= d <= e <= f <= |t| && CharAt(t, i, '(') == Some(d) && StringAt(t, d, NAME_SIZE) == Some((name, e))
    ensures CharAt(t, e, ',') == Some(f) && ParseAge(t, f, name) == InsertStatement(name, age)
  {
    hide CharAt, StringAt, ParseAge;
    d := CharAt(t, i, '(').value;
    e := StringAt(t, d, NAME_SIZE).value.1;
    f := CharAt(t, e, ',').value;
    var x, y := AgeParsed(t, f, StringAt(t, d, NAME_SIZE).value.0, age);
  }

  lemma ListBack(t: string, i: nat, name: string, age: int, sp0: InsertSpelling) returns (sp: InsertSpelling)
    requires i <= |t| && ParseValues(t, i) == InsertStatement(name, age)
    ensures sp == sp0.(gap4 := sp.gap4, gap5 := sp.gap5, gap6 := sp.gap6,
                       gap7 := sp.gap7, number := sp.number, gap8 := sp.gap8, close := sp.close)
    ensures t[i..] == ListText(sp, name) && SpellsList(sp, name) && SpellsAge(sp, age)
  {
    hide Gap, Quotable, CharAt, StringAt, ParseAge, ParseValues, IsNumber, IsClose, CloseText;
    var d, e, f := ListParsed(t, i, name, age);
    var g4 := CharBack(t, i, '(', d);
    var g5 := StringBack(t, d, name, e);
    var g6 := CharBack(t, e, ',', f);
    sp := AgeBack(t, f, name, age, sp0.(gap4 := g4, gap5 := g5, gap6 := g6));
    hide ParenText;
  }

  lemma IntoParsed(t: string, i: nat, name: string, age: int) returns (d: nat, users: string, e: nat, f: nat)
    requires i <= |t| && ParseInsert(t, i) == InsertStatement(name, age)
    ensures d <= e <= f <= |t| && KeywordEnd(t, SpacesEnd(t, i), "INTO") == Some(d)
    ensures IdentifierAt(t, d, IDENTIFIER_SIZE) == Some((users, e)) && SameWord(users, "users")
    ensures KeywordEnd(t, SpacesEnd(t, e), "VALUES") == Some(f) && ParseValues(t, f) == InsertStatement(name, age)
  {
    hide KeywordEnd, SpacesEnd, IdentifierAt, SameWord, ParseValues;
    d := KeywordEnd(t, SpacesEnd(t, i), "INTO").value;
    users, e := IdentifierAt(t, d, IDENTIFIER_SIZE).value.0, IdentifierAt(t, d, IDENTIFIER_SIZE).value.1;
    f := KeywordEnd(t, SpacesEnd(t, e), "VALUES").value;
  }

  lemma IntoBack(t: string, i: nat, name: string, age: int, insert: string) returns (sp: InsertSpelling)
    requires i <= |t| && ParseInsert(t, i) == InsertStatement(name, age) && !IsWord(At(t, i))
    ensures sp.insert == insert && t[i..] == IntoText(sp, name)
    ensures SpellsInto(sp) && SpellsList(sp, name) && SpellsAge(sp, age)
  {
    hide Gap, SameWord, KeywordEnd, SpacesEnd, IdentifierAt, ParseInsert, ParseValues, IsWord, SpellsList, SpellsAge,
         ListText, Letters;
    KeywordLetters();
    var d, users, e, f := IntoParsed(t, i, name, age);
    var g1, into := NextKeywordBack(t, i, "INTO", d);
    var g2 := IdentifierBack(t, d, users, e);
    var g3, values := NextKeywordBack(t, e, "VALUES", f);
    var sp0 := InsertSpelling(insert, g1, into, g2, users, g3, values, "", "", "", "", "", "", Bare(""));
    sp := ListBack(t, f, name, age, sp0);
  }

  lemma FirstParsed(t: string)
    ensures var st := ParseStatement(t);
            && (st.InsertStatement? ==> KeywordEnd(t, 0, "INSERT") == Some(6) && 6 <= |t| && st == ParseInsert(t, 6))
            && (st.SelectStatement? ==> KeywordEnd(t, 0, "SELECT") == Some(6) && 6 <= |t| && st == ParseSelect(t, 6))
  {
    hide SpacesEnd, StatementEnd, ParseInsert, ParseSelect, SameWord;
  }

  /** Whatever is read as an INSERT is a spelling of it. */
  lemma InsertBack(t: string, name: string, age: int) returns (sp: InsertSpelling)
    requires ParseStatement(t) == InsertStatement(name, age)
    ensures SpellsInsert(sp, name, age) && t == InsertText(sp, name)
  {
    hide ParseStatement, ParseInsert, KeywordEnd, SameWord, IntoText, SpellsInto, SpellsList, SpellsAge;
    FirstParsed(t);
    var w := KeywordBack(t, 0, "INSERT", 6);
    assert t[0..] == t;
    sp := IntoBack(t, 6, name, age, w);
  }

  /** The texts read as an INSERT are exactly its spellings. */
  lemma InsertLanguage(t: string, name: string, age: int)
    ensures ParseStatement(t) == InsertStatement(name, age) <==>
            exists sp :: SpellsInsert(sp, name, age) && t == InsertText(sp, name)
  {
    hide *;
    if ParseStatement(t) == InsertStatement(name, age) {
      var sp := InsertBack(t, name, age);
    }
    if sp :| SpellsInsert(sp, name, age) && t == InsertText(sp, name) {
      InsertReads(sp, name, age);
    }
  }

  // ----------------------------------------------- whatever is read as SELECT spells it

  lemma NumeralParsed(t: string, i: nat, column: Column, op: Comparison, c: Condition) returns (v: int, e: nat)
    requires i <= |t| && ParseCondition(t, i, column, op) == SelectStatement(c) &&
             (column == IdColumn || column == AgeColumn)
    ensures e <= |t| && IntAt(t, i) == Some((v, e)) && StatementEnd(t, e).0
    ensures c == if column == IdColumn then IdIs(op, v) else AgeIs(op, v)
  {
    hide IntAt, StatementEnd;
    v, e := IntAt(t, i).value.0, IntAt(t, i).value.1;
  }

  lemma QuotedParsed(t: string, i: nat, op: Comparison, c: Condition) returns (s: string, e: nat)
    requires i <= |t| && ParseCondition(t, i, NameColumn, op) == SelectStatement(c)
    ensures e <= |t| && StringAt(t, i, NAME_SIZE) == Some((s, e)) && StatementEnd(t, e).0 && c == NameIs(s) && op == Eq
  {
    hide StringAt, StatementEnd;
    s, e := StringAt(t, i, NAME_SIZE).value.0, StringAt(t, i, NAME_SIZE).value.1;
  }

  lemma OperandBack(t: string, i: nat, column: Column, op: Comparison, c: Condition)
    returns (g: string, v: Value, close: Close)
    requires i <= |t| && ParseCondition(t, i, column, op) == SelectStatement(c)
    ensures column == ColumnFor(c) && op == OpOf(c) && c != Everything
    ensures Gap(g) && SpellsValue(v, c) && IsClose(close) && t[i..] == g + ValueText(v, CloseText(close))
  {
    assert column != UnknownColumn;
    hide ParseCondition, Gap, IsNumber, Quotable, IsClose, CloseText, IntAt, StringAt, StatementEnd;
    if column == NameColumn {
      var s, e := QuotedParsed(t, i, op, c);
      g := StringBack(t, i, s, e);
      close := CloseBack(t, e);
      v := Quoted(s);
    } else {
      var n, e := NumeralParsed(t, i, column, op, c);
      var digits;
      g, digits := IntBack(t, i, n, e);
      close := CloseBack(t, e);
      v := Numeral(digits);
    }
  }

  lemma ColumnParsed(t: string, i: nat, c: Condition) returns (word: string, d: nat, op: Comparison, e: nat)
    requires i <= |t| && ParseWhere(t, i) == SelectStatement(c)
    ensures d <= e <= |t| && IdentifierAt(t, i, IDENTIFIER_SIZE) == Some((word, d)) &&
            ComparisonAt(t, d) == Some((op, e))
    ensures ParseCondition(t, e, ColumnOf(word), op) == SelectStatement(c)
  {
    hide IdentifierAt, ComparisonAt, ParseCondition, ColumnOf;
    word, d := IdentifierAt(t, i, IDENTIFIER_SIZE).value.0, IdentifierAt(t, i, IDENTIFIER_SIZE).value.1;
    op, e := ComparisonAt(t, d).value.0, ComparisonAt(t, d).value.1;
  }

  lemma ColumnBack(t: string, i: nat, c: Condition, before: Close, where: string)
    returns (x: WhereSpelling, close: Close)
    requires i <= |t| && ParseWhere(t, i) == SelectStatement(c) && !IsWord(At(t, i))
    requires IsClose(before) && CloseText(before) != "" && SameWord(where, "WHERE")
    ensures x.before == before && x.where == where && SpellsWhere(x, c) && IsClose(close)
    ensures t[i..] == ColumnText(x, OpOf(c), close)
  {
    hide Gap, SpellsValue, IsClose, CloseText, SameWord, IsWord, IdentifierAt, ComparisonAt, ParseCondition,
         ParseWhere, ColumnOf;
    hide ValueText, OpText, OpOf;
    var word, d, op, e := ColumnParsed(t, i, c);
    var g1 := IdentifierBack(t, i, word, d);
    var g2 := ComparisonBack(t, d, op, e);
    var g3, v;
    g3, v, close := OperandBack(t, e, ColumnOf(word), op, c);
    x := WhereSpelling(before, where, g1, word, g2, g3, v);
  }

  /** A failed end of statement followed by WHERE. */
  lemma FilterParsed(t: string, i: nat, c: Condition) returns (d: nat, e: nat)
    requires i <= |t| && ParseFilter(t, i) == SelectStatement(c) && !StatementEnd(t, i).0
    ensures StatementEnd(t, i).1 == d && d <= e <= |t| && KeywordEnd(t, d, "WHERE") == Some(e)
    ensures ParseWhere(t, e) == SelectStatement(c)
  {
    BlanksSkipped(t, i);
    hide StatementEnd, SpacesEnd, KeywordEnd, ParseWhere;
    d := StatementEnd(t, i).1;
    e := KeywordEnd(t, d, "WHERE").value;
  }

  lemma WholeTable(t: string, i: nat, c: Condition)
    requires i <= |t| && ParseFilter(t, i) == SelectStatement(c) && StatementEnd(t, i).0
    ensures c == Everything
  {
    BlanksSkipped(t, i);
    hide StatementEnd, SpacesEnd;
  }

  lemma BeforeWhere(t: string, i: nat, d: nat, e: nat, b: string, w: string)
    requires i <= |t| && d <= e <= |t| && !IsWord(At(t, i)) && t[i..] == b + t[d..] && t[d..] == w + t[e..] &&
             SameWord(w, "WHERE")
    ensures b != ""
  {
    KeywordLetters();
    SameLetters(w, "WHERE");
    assert t[d..][0] == w[0];
    assert |t[i..]| == |b| + |t[d..]|;
  }

  lemma FilterBack(t: string, i: nat, c: Condition, sp0: SelectSpelling) returns (sp: SelectSpelling)
    requires i <= |t| && ParseFilter(t, i) == SelectStatement(c) && !IsWord(At(t, i))
    ensures sp == sp0.(filter := sp.filter, close := sp.close)
    ensures t[i..] == FilterText(sp, OpOf(c)) && SpellsFilter(sp, c)
  {
    hide IsClose, CloseText, SameWord, IsWord, StatementEnd, KeywordEnd, ParseFilter, ParseWhere, SpellsWhere,
         ColumnText, OpOf;
    var close := CloseBack(t, i);
    if StatementEnd(t, i).0 {
      WholeTable(t, i, c);
      sp := sp0.(filter := None, close := close);
    } else {
      var d, e := FilterParsed(t, i, c);
      var w := KeywordBack(t, d, "WHERE", e);
      BeforeWhere(t, i, d, e, CloseText(close), w);
      var x, end := ColumnBack(t, e, c, close, w);
      sp := sp0.(filter := Some(x), close := end);
    }
  }

  lemma StarParsed(t: string, i: nat, f: nat) returns (d: nat, e: nat, users: string)
    requires i <= |t| && SelectHead(t, i) == Go(f)
    ensures d <= e <= f <= |t| && CharAt(t, i, '*') == Some(d) && KeywordEnd(t, SpacesEnd(t, d), "FROM") == Some(e)
    ensures IdentifierAt(t, e, IDENTIFIER_SIZE) == Some((users, f)) && SameWord(users, "users")
  {
    StarAt(t, i);
    hide CharAt, KeywordEnd, SpacesEnd, IdentifierAt, SameWord;
    d := CharAt(t, i, '*').value;
    e := KeywordEnd(t, SpacesEnd(t, d), "FROM").value;
    users := IdentifierAt(t, e, IDENTIFIER_SIZE).value.0;
  }

  /** The head of a SELECT taken apart; the filter is left to whoever reads on. */
  lemma HeadBack(t: string, i: nat, f: nat, select: string) returns (sp: SelectSpelling)
    requires i <= |t| && SelectHead(t, i) == Go(f)
    ensures f <= |t| && sp.select == select && t[i..] == StarText(sp, t[f..]) && SpellsStar(sp) && !IsWord(At(t, f))
  {
    hide Gap, SameWord, IsWord, CharAt, KeywordEnd, SpacesEnd, IdentifierAt, SelectHead, Letters, Identifier;
    KeywordLetters();
    var d, e, users := StarParsed(t, i, f);
    var g1 := CharBack(t, i, '*', d);
    var g2, from := NextKeywordBack(t, d, "FROM", e);
    var g3 := IdentifierBack(t, e, users, f);
    sp := SelectSpelling(select, g1, g2, from, g3, users, None, Bare(""));
  }

  lemma HeadParsed(t: string, i: nat, c: Condition) returns (f: nat)
    requires i <= |t| && ParseSelect(t, i) == SelectStatement(c)
    ensures f <= |t| && SelectHead(t, i) == Go(f) && ParseFilter(t, f) == SelectStatement(c)
  {
    hide SelectHead, ParseFilter;
    f := SelectHead(t, i).at;
  }

  lemma StarBack(t: string, i: nat, c: Condition, select: string) returns (sp: SelectSpelling)
    requires i <= |t| && ParseSelect(t, i) == SelectStatement(c)
    ensures sp.select == select && t[i..] == StarText(sp, FilterText(sp, OpOf(c))) && SpellsStar(sp) &&
            SpellsFilter(sp, c)
  {
    hide Gap, SameWord, IsWord, ParseSelect, SelectHead, ParseFilter, SpellsFilter, FilterText, OpOf;
    var f := HeadParsed(t, i, c);
    var head := HeadBack(t, i, f, select);
    sp := FilterBack(t, f, c, head);
  }

  /** Whatever is read as a SELECT is a spelling of it. */
  lemma SelectBack(t: string, c: Condition) returns (sp: SelectSpelling)
    requires ParseStatement(t) == SelectStatement(c)
    ensures SpellsSelect(sp, c) && t == SelectText(sp, c)
  {
    hide ParseStatement, ParseSelect, KeywordEnd, SameWord, StarText, SpellsStar, SpellsFilter, OpOf;
    FirstParsed(t);
    var w := KeywordBack(t, 0, "SELECT", 6);
    assert t[0..] == t;
    sp := StarBack(t, 6, c, w);
  }

  /** The texts read as a SELECT are exactly its spellings. */
  lemma SelectLanguage(t: string, c: Condition)
    ensures ParseStatement(t) == SelectStatement(c) <==> exists sp :: SpellsSelect(sp, c) && t == SelectText(sp, c)
  {
    hide *;
    if ParseStatement(t) == SelectStatement(c) {
      var sp := SelectBack(t, c);
    }
    if sp :| SpellsSelect(sp, c) && t == SelectText(sp, c) {
      SelectReads(sp, c);
    }
  }

  // -------------------------------------------------------------- plain spellings

  predicate IsInt(v: int) {
    -INT_MAX - 1 <= v <= INT_MAX
  }

  /** A statement the syntax can express: ints that fit, names without quotes that fit. */
  predicate Expressible(st: Statement) {
    match st
    case InsertStatement(name, age) => Quotable(name) && IsInt(age)
    case SelectStatement(Everything) => true
    case SelectStatement(IdIs(_, v)) => IsInt(v)
    case SelectStatement(NameIs(s)) => Quotable(s)
    case SelectStatement(AgeIs(_, v)) => IsInt(v)
    case _ => false
  }

  /** The printed form of an int is a numeral for it. */
  lemma PrintedNumber(v: int)
    requires IsInt(v)
    ensures IsNumber(SignedDecimal(v), v)
  {
    var d := Decimal(if v < 0 then -v else v);
    assert d[0..|d|] == d;
    DigitsOfDecimal(d, 0, if v < 0 then -v else v);
    if v < 0 {
      assert ("-" + d)[1..] == d;
    } else {
      assert IsDigit(d[0]);
    }
  }

  function PlainInsert(age: int): InsertSpelling {
    InsertSpelling("INSERT", " ", "INTO", " ", "users", " ", "VALUES", " ", "", "", " ", SignedDecimal(age), "",
        Bare(""))
  }

  function PlainWhere(before: Close, column: string, v: Value): WhereSpelling {
    WhereSpelling(before, "WHERE", " ", column, " ", " ", v)
  }

  /** The plain spelling of a SELECT, with the given text between the table name and WHERE. */
  function PlainSelect(c: Condition, before: Close): SelectSpelling {
    SelectSpelling("SELECT", " ", " ", "FROM", " ", "users",
      match c
      case Everything => None
      case IdIs(_, v) => Some(PlainWhere(before, "id", Numeral(SignedDecimal(v))))
      case NameIs(s) => Some(PlainWhere(before, "name", Quoted(s)))
      case AgeIs(_, v) => Some(PlainWhere(before, "age", Numeral(SignedDecimal(v)))),
      Bare(""))
  }

  lemma Columns()
    ensures ColumnOf("id") == IdColumn && ColumnOf("name") == NameColumn && ColumnOf("age") == AgeColumn
  {
    var a, n := "age", "name";
    assert a[0] == 'a' && n[0] == 'n';
    assert SameWord("id", "id") && SameWord("name", "name") && SameWord("age", "age");
    assert !SameWord(a, "name") && !SameWord(a, "id") && !SameWord(n, "id");
  }

  lemma PlainInsertReads(name: string, age: int)
    requires Expressible(InsertStatement(name, age))
    ensures ParseStatement(InsertText(PlainInsert(age), name)) == InsertStatement(name, age)
  {
    PrintedNumber(age);
    hide IsNumber, SignedDecimal, ParseStatement, InsertText, Quotable;
    assert SpellsInsert(PlainInsert(age), name, age);
    InsertReads(PlainInsert(age), name, age);
  }

  /** In a SELECT the end-of-statement marks may stand before WHERE too, a semicolon included. */
  lemma PlainSelectReads(c: Condition, before: Close)
    requires Expressible(SelectStatement(c)) && IsClose(before) && CloseText(before) != ""
    ensures ParseStatement(SelectText(PlainSelect(c, before), c)) == SelectStatement(c)
  {
    Columns();
    hide IsNumber, SignedDecimal, ParseStatement, SelectText, Quotable, ColumnOf, CloseText, SpellsWhere, PlainWhere;
    match c {
      case Everything =>
      case IdIs(_, v) =>
        PrintedNumber(v);
        PlainWhereSpells(c, before, "id", Numeral(SignedDecimal(v)));
      case NameIs(s) =>
        PlainWhereSpells(c, before, "name", Quoted(s));
      case AgeIs(_, v) =>
        PrintedNumber(v);
        PlainWhereSpells(c, before, "age", Numeral(SignedDecimal(v)));
    }
    PlainSelectSpells(c, before);
    SelectReads(PlainSelect(c, before), c);
  }

  lemma PlainWhereSpells(c: Condition, before: Close, column: string, v: Value)
    requires IsClose(before) && CloseText(before) != "" && c != Everything
    requires ColumnOf(column) == ColumnFor(c) && SpellsValue(v, c)
    ensures SpellsWhere(PlainWhere(before, column, v), c)
  {
    hide CloseText, IsClose, ColumnOf, ColumnFor, SpellsValue;
  }

  lemma PlainSelectSpells(c: Condition, before: Close)
    requires var x := PlainSelect(c, before).filter;
             if x.None? then c == Everything else SpellsWhere(x.value, c)
    ensures SpellsSelect(PlainSelect(c, before), c)
  {
    hide SpellsWhere, PlainWhere, SignedDecimal;
  }

  lemma NumbersFit(n: string, v: int)
    requires IsNumber(n, v)
    ensures IsInt(v)
  {
  }

  lemma SpelledIsExpressible(t: string)
    requires ParseStatement(t).InsertStatement? || ParseStatement(t).SelectStatement?
    ensures Expressible(ParseStatement(t))
  {
    hide ParseStatement, IsNumber, Quotable, IsInt, InsertText, SelectText;
    match ParseStatement(t) {
      case InsertStatement(name, age) =>
        var sp := InsertBack(t, name, age);
        NumbersFit(sp.number, age);
      case SelectStatement(c) =>
        var sp := SelectBack(t, c);
        match c {
          case IdIs(_, v) => NumbersFit(sp.filter.value.value.digits, v);
          case AgeIs(_, v) => NumbersFit(sp.filter.value.value.digits, v);
          case _ =>
        }
    }
  }

  /** The statements that some text denotes are exactly the expressible ones. */
  lemma ExpressibleExactly(st: Statement)
    requires st.InsertStatement? || st.SelectStatement?
    ensures Expressible(st) <==> exists t :: ParseStatement(t) == st
  {
    hide ParseStatement, Expressible, InsertText, SelectText;
    if Expressible(st) {
      match st {
        case InsertStatement(name, age) => PlainInsertReads(name, age);
        case SelectStatement(c) => PlainSelectReads(c, Bare(" "));
      }
    }
    if t :| ParseStatement(t) == st {
      SpelledIsExpressible(t);
    }
  }
}
