/**
 Every text falls into one of five kinds: an INSERT, a SELECT, EXIT or QUIT, a
 query about an unknown column, or a syntax error.  The first two are the subject
 of the grammar; here are the languages of the others, and of the server's own
 look at the first word and at WHERE.
 */
module SqlKinds {
  import opened Records
  import opened SqlText
  import opened Sql
  import opened SqlTokens
  import opened SqlGrammar
  import opened Classifier

  // ------------------------------------------------------------------ characters

  /** The character classes, by code. */
  lemma CharacterClasses(c: char)
    ensures IsSpace(c) <==> c as int in {9, 10, 11, 12, 13, 32}
    ensures IsDigit(c) <==> 48 <= c as int <= 57
    ensures IsAlpha(c) <==> 65 <= c as int <= 90 || 97 <= c as int <= 122
    ensures IsWord(c) <==> IsAlpha(c) || IsDigit(c) || c as int == 95
  {
  }

  /** Two words are the same up to letter case: at each place the same character, or the two cases of a letter. */
  lemma SameWordMeans(a: string, b: string)
    ensures SameWord(a, b) <==>
            |a| == |b| && forall i :: 0 <= i < |a| ==>
              a[i] == b[i] || (IsAlpha(a[i]) && IsAlpha(b[i]) &&
                  (a[i] as int - b[i] as int == 32 || b[i] as int - a[i] as int == 32))
  {
  }

  /** What fits the buffers: identifiers of up to 31 characters, string literals of up to 63. */
  lemma BufferLimits(w: string)
    ensures Identifier(w) ==> 1 <= |w| <= 31
    ensures Quotable(w) <==> |w| <= 63 && forall i :: 0 <= i < |w| ==> w[i] as int != 39
    ensures |w| in {1, 31} && (forall i :: 0 <= i < |w| ==> IsAlpha(w[i])) ==> Identifier(w)
  {
  }

  // ------------------------------------------------------------ the first word

  /** The text starts, after blanks, with this word in any letter case. */
  ghost predicate StartsWith(t: string, word: string) {
    exists g, w, rest :: Opens(t, g, w, word, rest)
  }

  predicate Opens(t: string, g: string, w: string, word: string, rest: string) {
    t == g + (w + rest) && Gap(g) && SameWord(w, word) && Breaks(rest)
  }

  lemma FirstWordFound(t: string, word: string)
    requires Letters(word)
    ensures StartsWith(t, word) <==> KeywordEnd(t, SpacesEnd(t, 0), word).Some?
  {
    hide SpacesEnd, KeywordEnd;
    assert t[0..] == t;
    if KeywordEnd(t, SpacesEnd(t, 0), word).Some? {
      var e := KeywordEnd(t, SpacesEnd(t, 0), word).value;
      var g, w := NextKeywordBack(t, 0, word, e);
      assert At(t[e..], 0) == At(t, e);
      assert Opens(t, g, w, word, t[e..]);
    }
    if g, w, rest :| Opens(t, g, w, word, rest) {
      NextKeywordRead(t, 0, g, w, word, rest);
    }
  }

  lemma Keywords()
    ensures Letters("INSERT") && Letters("SELECT") && Letters("EXIT") && Letters("QUIT") && Letters("WHERE") &&
            Letters("FROM")
  {
  }

  /** One text starts with one word only. */
  lemma OneFirstWord(t: string)
    ensures !(StartsWith(t, "INSERT") && StartsWith(t, "SELECT"))
    ensures !(StartsWith(t, "EXIT") && StartsWith(t, "QUIT"))
  {
    Keywords();
    FirstWordFound(t, "INSERT");
    FirstWordFound(t, "SELECT");
    FirstWordFound(t, "EXIT");
    FirstWordFound(t, "QUIT");
    hide SpacesEnd;
    var i := SpacesEnd(t, 0);
    if KeywordEnd(t, i, "INSERT").Some? {
      OneKeyword(t, i, "INSERT", "SELECT");
    }
    if KeywordEnd(t, i, "EXIT").Some? {
      OneKeyword(t, i, "EXIT", "QUIT");
    }
  }

  /** The lock kind is decided by the first word: WRITE exactly for INSERT, READ exactly for SELECT, otherwise none. */
  lemma ClassifyMeans(t: string)
    ensures Classify(t) == KindWrite <==> StartsWith(t, "INSERT")
    ensures Classify(t) == KindRead <==> StartsWith(t, "SELECT")
    ensures Classify(t) == KindNone <==> !StartsWith(t, "INSERT") && !StartsWith(t, "SELECT")
  {
    Keywords();
    FirstWordFound(t, "INSERT");
    FirstWordFound(t, "SELECT");
    OneFirstWord(t);
    hide StartsWith, SpacesEnd, KeywordEnd;
  }

  // -------------------------------------------------------------- EXIT and QUIT

  /** Blanks, EXIT or QUIT in any letter case, and the end of the statement. */
  predicate SpellsExit(t: string, g: string, w: string, close: Close) {
    && t == g + (w + CloseText(close))
    && Gap(g) && (SameWord(w, "EXIT") || SameWord(w, "QUIT")) && IsClose(close)
  }

  lemma ExitReads(t: string, g: string, w: string, word: string, close: Close)
    requires t == g + (w + CloseText(close)) && Gap(g) && SameWord(w, word) && IsClose(close) && Letters(word)
    ensures var i := SpacesEnd(t, 0); KeywordEnd(t, i, word).Some? && StatementEnd(t, KeywordEnd(t, i, word).value).0
  {
    hide SpacesEnd, KeywordEnd, StatementEnd, Gap, SameWord, IsClose, CloseText, Letters, Breaks;
    CloseAlone(close);
    assert t[0..] == t;
    NextKeywordRead(t, 0, g, w, word, CloseText(close));
    CloseRead(t, |g| + |w|, close, "");
  }

  lemma ExitBack(t: string, word: string) returns (g: string, w: string, close: Close)
    requires var i := SpacesEnd(t, 0); KeywordEnd(t, i, word).Some? && StatementEnd(t, KeywordEnd(t, i, word).value).0
    requires Letters(word)
    ensures t == g + (w + CloseText(close)) && Gap(g) && SameWord(w, word) && IsClose(close)
  {
    hide SpacesEnd, KeywordEnd, StatementEnd, Gap, SameWord, IsClose, CloseText, Letters;
    var e := KeywordEnd(t, SpacesEnd(t, 0), word).value;
    assert t[0..] == t;
    g, w := NextKeywordBack(t, 0, word, e);
    close := CloseBack(t, e);
  }

  lemma ExitParsed(t: string)
    ensures ParseStatement(t) == ExitStatement <==>
            var i := SpacesEnd(t, 0);
            || (KeywordEnd(t, i, "EXIT").Some? && StatementEnd(t, KeywordEnd(t, i, "EXIT").value).0)
            || (KeywordEnd(t, i, "QUIT").Some? && StatementEnd(t, KeywordEnd(t, i, "QUIT").value).0)
  {
    hide SpacesEnd, StatementEnd, ParseInsert, ParseSelect;
    if KeywordEnd(t, SpacesEnd(t, 0), "EXIT").Some? {
      OneKeyword(t, SpacesEnd(t, 0), "EXIT", "QUIT");
    }
  }

  /** The texts read as EXIT are exactly the spellings of EXIT and QUIT. */
  lemma ExitLanguage(t: string)
    ensures ParseStatement(t) == ExitStatement <==> exists g, w, close :: SpellsExit(t, g, w, close)
  {
    Keywords();
    ExitParsed(t);
    hide ParseStatement, SpacesEnd, KeywordEnd, StatementEnd, Letters, Gap, SameWord, IsClose, CloseText;
    if ParseStatement(t) == ExitStatement {
      var i := SpacesEnd(t, 0);
      var word := if KeywordEnd(t, i, "EXIT").Some? && StatementEnd(t, KeywordEnd(t, i, "EXIT").value).0 then "EXIT"
          else "QUIT";
      var g, w, close := ExitBack(t, word);
      assert SpellsExit(t, g, w, close);
    }
    if g, w, close :| SpellsExit(t, g, w, close) {
      ExitReads(t, g, w, if SameWord(w, "EXIT") then "EXIT" else "QUIT", close);
    }
  }

  // ------------------------------------------------------------- unknown columns

  /** A SELECT that names a column the table does not have, in its list or in its condition; what follows is
      not read. */
  datatype UnknownSpelling =
    | Listed(select: string, gap: string, column: string, rest: string)
    | Compared(head: SelectSpelling, before: Close, where: string, gap1: string, column: string, gap2: string,
               op: Comparison, rest: string)

  function UnknownText(u: UnknownSpelling): string {
    match u
    case Listed(s, g, c, rest) => s + (g + (c + rest))
    case Compared(head, _, _, _, _, _, _, _) => head.select + StarText(head, WhereTail(u))
  }

  function WhereTail(u: UnknownSpelling): string
    requires u.Compared?
  {
    CloseText(u.before) + (u.where + ColumnTail(u))
  }

  function ColumnTail(u: UnknownSpelling): string
    requires u.Compared?
  {
    u.gap1 + (u.column + OpTail(u))
  }

  function OpTail(u: UnknownSpelling): string
    requires u.Compared?
  {
    u.gap2 + (OpText(u.op) + u.rest)
  }

  predicate SpellsUnknown(u: UnknownSpelling) {
    && Identifier(u.column) && ColumnOf(u.column) == UnknownColumn
    && match u
       case Listed(s, g, c, rest) => SameWord(s, "SELECT") && Gap(g) && g != "" && Breaks(rest)
       case Compared(head, b, w, g1, c, g2, op, rest) =>
         && SameWord(head.select, "SELECT") && SpellsStar(head)
         && IsClose(b) && CloseText(b) != "" && SameWord(w, "WHERE")
         && Gap(g1) && g1 != "" && Gap(g2) && (op == Lt || op == Gt ==> At(rest, 0) != '=')
  }

  lemma ListedReads(t: string, i: nat, g: string, column: string, rest: string)
    requires i <= |t| && t[i..] == g + (column + rest) && Gap(g) && Identifier(column) && Breaks(rest)
    requires ColumnOf(column) == UnknownColumn
    ensures ParseSelect(t, i) == Rejected(QueryError)
  {
    assert (column + rest)[0] == column[0];
    GapRead(t, i, g, column + rest);
    Split(t, i + |g|, column, rest);
    assert t[i + |g|] == column[0];
    IdentifierRead(t, i, g, column, rest);
    hide Gap, Breaks, ColumnOf, SpacesEnd, WordEnd, Identifier;
    IdentifierSkips(t, i);
    assert CharAt(t, SpacesEnd(t, i), '*').None?;
  }

  lemma IdentifierSkips(t: string, i: nat)
    requires i <= |t|
    ensures IdentifierAt(t, SpacesEnd(t, i), IDENTIFIER_SIZE) == IdentifierAt(t, i, IDENTIFIER_SIZE)
    ensures SpacesEnd(t, SpacesEnd(t, i)) == SpacesEnd(t, i)
  {
  }

  lemma ColumnPiecesUnknown(u: UnknownSpelling)
    requires u.Compared? && SpellsUnknown(u)
    ensures ColumnTail(u) == u.gap1 + (u.column + OpTail(u)) && OpTail(u) == u.gap2 + (OpText(u.op) + u.rest)
    ensures Gap(u.gap1) && Identifier(u.column) && Breaks(OpTail(u)) && Gap(u.gap2)
    ensures Breaks(ColumnTail(u)) && ColumnOf(u.column) == UnknownColumn
    ensures u.op == Lt || u.op == Gt ==> At(u.rest, 0) != '='
  {
    OpBreaks(u.op, u.rest);
    GapBreaks(u.gap2, OpText(u.op) + u.rest);
    GapBreaks(u.gap1, u.column + OpTail(u));
  }

  lemma ColumnTokensUnknown(t: string, i: nat, u: UnknownSpelling) returns (d: nat, e: nat)
    requires i <= |t| && u.Compared? && SpellsUnknown(u) && t[i..] == ColumnTail(u)
    ensures d <= e <= |t| && IdentifierAt(t, i, IDENTIFIER_SIZE) == Some((u.column, d)) &&
            ComparisonAt(t, d) == Some((u.op, e))
    ensures ColumnOf(u.column) == UnknownColumn
  {
    hide *;
    ColumnPiecesUnknown(u);
    IdentifierRead(t, i, u.gap1, u.column, OpTail(u));
    d := i + |u.gap1| + |u.column|;
    ComparisonRead(t, d, u.gap2, u.op, u.rest);
    e := d + |u.gap2| + |OpText(u.op)|;
  }

  lemma UnknownRefused(t: string, i: nat, u: UnknownSpelling)
    requires i <= |t| && u.Compared? && SpellsUnknown(u) && t[i..] == ColumnTail(u)
    ensures ParseWhere(t, i) == Rejected(QueryError)
  {
    hide IdentifierAt, ComparisonAt, ColumnOf, SpellsUnknown, ColumnTail;
    var d, e := ColumnTokensUnknown(t, i, u);
  }

  lemma WherePiecesUnknown(u: UnknownSpelling)
    requires u.Compared? && SpellsUnknown(u)
    ensures WhereTail(u) == CloseText(u.before) + (u.where + ColumnTail(u)) && Breaks(WhereTail(u))
    ensures IsClose(u.before) && SameWord(u.where, "WHERE") && Breaks(ColumnTail(u))
    ensures var tail := u.where + ColumnTail(u); tail != "" && IsAlpha(tail[0])
  {
    Keywords();
    SameLetters(u.where, "WHERE");
    ColumnPiecesUnknown(u);
    CloseBreaks(u.before, u.where + ColumnTail(u));
    assert (u.where + ColumnTail(u))[0] == u.where[0];
  }

  lemma WhereTokensUnknown(t: string, i: nat, u: UnknownSpelling) returns (d: nat, e: nat)
    requires i <= |t| && u.Compared? && SpellsUnknown(u) && t[i..] == WhereTail(u)
    ensures d <= e <= |t| && StatementEnd(t, i) == (false, d) && KeywordEnd(t, d, "WHERE") == Some(e)
    ensures ParseWhere(t, e) == Rejected(QueryError)
  {
    hide *;
    WherePiecesUnknown(u);
    CloseRead(t, i, u.before, u.where + ColumnTail(u));
    d := i + |CloseText(u.before)|;
    KeywordRead(t, d, u.where, "WHERE", ColumnTail(u));
    e := d + |u.where|;
    UnknownRefused(t, e, u);
  }

  lemma ComparedReads(t: string, i: nat, u: UnknownSpelling)
    requires i <= |t| && u.Compared? && SpellsUnknown(u) && t[i..] == StarText(u.head, WhereTail(u))
    ensures ParseSelect(t, i) == Rejected(QueryError)
  {
    WherePiecesUnknown(u);
    assert SpellsStar(u.head);
    hide SpellsUnknown, StarText, WhereTail, SpellsStar, SelectHead, StatementEnd, KeywordEnd, ParseWhere, SpacesEnd,
         Breaks;
    var f := HeadReads(t, i, u.head, WhereTail(u));
    BlanksSkipped(t, f);
    var d, e := WhereTokensUnknown(t, f, u);
  }

  /** Every spelling of a query about an unknown column is refused as such. */
  lemma UnknownReads(u: UnknownSpelling)
    requires SpellsUnknown(u)
    ensures ParseStatement(UnknownText(u)) == Rejected(QueryError)
  {
    var t := UnknownText(u);
    match u {
      case Listed(s, g, c, rest) =>
        GapBreaks(g, c + rest);
        hide Gap, Identifier, ColumnOf, SameWord, KeywordEnd, SpacesEnd, ParseSelect, ParseInsert, Breaks;
        FirstWord(t, s, "SELECT", g + (c + rest));
        ListedReads(t, 6, g, c, rest);
      case Compared(head, _, _, _, _, _, _, _) =>
        StarPieces(head, WhereTail(u));
        hide SpellsStar, StarText, SameWord, KeywordEnd, SpacesEnd, ParseSelect, ParseInsert, Breaks, ColumnOf,
             WhereTail;
        FirstWord(t, head.select, "SELECT", StarText(head, WhereTail(u)));
        ComparedReads(t, 6, u);
    }
  }

  // What a refusal as unknown column comes from.

  lemma UnknownParsed(t: string)
    requires ParseStatement(t) == Rejected(QueryError)
    ensures KeywordEnd(t, 0, "SELECT") == Some(6) && 6 <= |t| && ParseSelect(t, 6) == Rejected(QueryError)
  {
    InsertNeverUnknown(t);
    hide SpacesEnd, StatementEnd, ParseInsert, ParseSelect, SameWord;
  }

  lemma InsertNeverUnknown(t: string)
    ensures forall i: nat :: i <= |t| ==> ParseInsert(t, i) != Rejected(QueryError)
  {
    hide KeywordEnd, SpacesEnd, IdentifierAt, CharAt, StringAt, IntAt, StatementEnd, SameWord;
  }

  lemma ConditionParsed(t: string, i: nat) returns (column: string, d: nat, op: Comparison, e: nat)
    requires i <= |t| && ParseWhere(t, i) == Rejected(QueryError)
    ensures d <= e <= |t| && IdentifierAt(t, i, IDENTIFIER_SIZE) == Some((column, d)) &&
            ComparisonAt(t, d) == Some((op, e))
    ensures ColumnOf(column) == UnknownColumn
  {
    hide IdentifierAt, ComparisonAt, ColumnOf, IntAt, StringAt, StatementEnd;
    column, d := IdentifierAt(t, i, IDENTIFIER_SIZE).value.0, IdentifierAt(t, i, IDENTIFIER_SIZE).value.1;
    op, e := ComparisonAt(t, d).value.0, ComparisonAt(t, d).value.1;
  }

  lemma WhereParsed(t: string, i: nat) returns (d: nat, e: nat)
    requires i <= |t| && ParseFilter(t, i) == Rejected(QueryError)
    ensures StatementEnd(t, i).1 == d && d <= e <= |t| && KeywordEnd(t, d, "WHERE") == Some(e)
    ensures ParseWhere(t, e) == Rejected(QueryError)
  {
    BlanksSkipped(t, i);
    hide StatementEnd, SpacesEnd, KeywordEnd, ParseWhere;
    d := StatementEnd(t, i).1;
    e := KeywordEnd(t, d, "WHERE").value;
  }

  lemma ComparedBack(t: string, i: nat, f: nat, select: string) returns (u: UnknownSpelling)
    requires i <= |t| && SelectHead(t, i) == Go(f) && f <= |t| && ParseFilter(t, f) == Rejected(QueryError)
    requires SameWord(select, "SELECT")
    ensures u.Compared? && u.head.select == select && SpellsUnknown(u) && t[i..] == StarText(u.head, WhereTail(u))
  {
    hide Gap, SameWord, IsWord, IsClose, CloseText, StatementEnd, KeywordEnd, SelectHead, ParseFilter, ParseWhere;
    hide IdentifierAt, ComparisonAt, ColumnOf, Identifier, SpellsStar, OpText, StarText;
    var head := HeadBack(t, i, f, select);
    var before := CloseBack(t, f);
    var d, e := WhereParsed(t, f);
    var where := KeywordBack(t, d, "WHERE", e);
    BeforeWhere(t, f, d, e, CloseText(before), where);
    var column, x, op, y := ConditionParsed(t, e);
    var g1 := IdentifierBack(t, e, column, x);
    var g2 := ComparisonBack(t, x, op, y);
    assert At(t[y..], 0) == At(t, y);
    u := Compared(head, before, where, g1, column, g2, op, t[y..]);
  }

  lemma ListedParsed(t: string, i: nat) returns (column: string, e: nat)
    requires i <= |t| && SelectHead(t, i) == Stop(QueryError)
    ensures IdentifierAt(t, i, IDENTIFIER_SIZE) == Some((column, e)) && ColumnOf(column) == UnknownColumn
  {
    IdentifierSkips(t, i);
    hide IdentifierAt, ColumnOf, CharAt, KeywordEnd, SameWord;
    column, e := IdentifierAt(t, i, IDENTIFIER_SIZE).value.0, IdentifierAt(t, i, IDENTIFIER_SIZE).value.1;
  }

  /** Whatever is refused as unknown column is a spelling of such a query. */
  lemma UnknownBack(t: string) returns (u: UnknownSpelling)
    requires ParseStatement(t) == Rejected(QueryError)
    ensures SpellsUnknown(u) && t == UnknownText(u)
  {
    hide ParseStatement, ParseFilter, KeywordEnd, SameWord, SelectHead, StarText, WhereTail, ColumnOf, Identifier, Gap;
    UnknownParsed(t);
    var w := KeywordBack(t, 0, "SELECT", 6);
    assert t[0..] == t;
    match SelectHead(t, 6) {
      case Stop(why) =>
        var column, e := ListedParsed(t, 6);
        var g := IdentifierBack(t, 6, column, e);
        assert At(t[e..], 0) == At(t, e);
        u := Listed(w, g, column, t[e..]);
      case Go(f) =>
        u := ComparedBack(t, 6, f, w);
    }
  }

  /** The texts refused as unknown column are exactly the spellings of such queries. */
  lemma UnknownLanguage(t: string)
    ensures ParseStatement(t) == Rejected(QueryError) <==> exists u :: SpellsUnknown(u) && t == UnknownText(u)
  {
    hide *;
    if ParseStatement(t) == Rejected(QueryError) {
      var u := UnknownBack(t);
    }
    if u :| SpellsUnknown(u) && t == UnknownText(u) {
      UnknownReads(u);
    }
  }

  /** Everything else is a syntax error. */
  lemma FiveKinds(t: string)
    ensures var st := ParseStatement(t);
            st.InsertStatement? || st.SelectStatement? || st == ExitStatement || st == Rejected(QueryError) || st ==
                Rejected(SyntaxError)
  {
    hide SpacesEnd, KeywordEnd, IdentifierAt, CharAt, StringAt, IntAt, StatementEnd, SameWord, ComparisonAt, ColumnOf;
  }

  // ------------------------------------------------------------- the index guess

  /** WHERE stands at position i of the text, the identifier `id` after it. */
  predicate WhereAt(t: string, i: int) {
    0 <= i < |t| && KeywordEnd(t, i, "WHERE").Some?
  }

  predicate IdAfter(t: string, i: int)
    requires WhereAt(t, i)
  {
    var column := IdentifierAt(t, KeywordEnd(t, i, "WHERE").value, IDENTIFIER_SIZE);
    column.Some? && SameWord(column.value.0, "id")
  }

  lemma {:induction false} GuessFromMeans(t: string, from: nat)
    requires from <= |t|
    ensures GuessFrom(t, from) <==>
            exists i :: from <= i && WhereAt(t, i) && IdAfter(t, i) && forall j :: from <= j < i ==> !WhereAt(t, j)
    decreases |t| - from
  {
    hide IdentifierAt, KeywordEnd;
    if from < |t| && !WhereAt(t, from) {
      GuessFromMeans(t, from + 1);
      if i :| from + 1 <= i && WhereAt(t, i) && IdAfter(t, i) && forall j :: from + 1 <= j < i ==> !WhereAt(t, j) {
        assert forall j :: from <= j < i ==> !WhereAt(t, j);
      }
    } else if from < |t| {
      if IdAfter(t, from) {
        assert forall j :: from <= j < from ==> !WhereAt(t, j);
      }
    }
  }

  /** The guess is: a first word SELECT, and `id` after the first WHERE that follows it. */
  lemma GuessMeans(t: string)
    ensures GuessUsesIndex(t) <==>
            && StartsWith(t, "SELECT")
            && exists i :: SpacesEnd(t, 0) + 6 <= i && WhereAt(t, i) && IdAfter(t, i)
                           && forall j :: SpacesEnd(t, 0) + 6 <= j < i ==> !WhereAt(t, j)
  {
    Keywords();
    FirstWordFound(t, "SELECT");
    if KeywordEnd(t, SpacesEnd(t, 0), "SELECT").Some? {
      GuessFromMeans(t, SpacesEnd(t, 0) + 6);
    }
    hide StartsWith, GuessFrom, WhereAt, IdAfter, SpacesEnd;
  }
}
