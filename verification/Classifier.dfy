/**
 The server's own reading of the query text, made before any lock is taken:
 which lock the query needs and whether it will use the id index.  The server
 scans the text independently of the executor; the lemmas say they agree.
 */
module Classifier {
  import opened SqlText
  import opened Sql

  datatype QueryKind = KindNone | KindRead | KindWrite

  function Classify(q: string): QueryKind {
    if KeywordEnd(q, SpacesEnd(q, 0), "SELECT").Some? then KindRead
    else if KeywordEnd(q, SpacesEnd(q, 0), "INSERT").Some? then KindWrite
    else KindNone
  }

  /** The scan for the word WHERE from position i, and a look at the identifier after it. */
  function GuessFrom(q: string, i: nat): bool
    requires i <= |q|
    decreases |q| - i
  {
    if i == |q| then false else
    var where := KeywordEnd(q, i, "WHERE");
    if where.Some? then
      var column := IdentifierAt(q, where.value, IDENTIFIER_SIZE);
      column.Some? && SameWord(column.value.0, "id")
    else GuessFrom(q, i + 1)
  }

  function GuessUsesIndex(q: string): bool {
    var select := KeywordEnd(q, SpacesEnd(q, 0), "SELECT");
    select.Some? && GuessFrom(q, select.value)
  }

  // ---------------------------------------------------------------- the loops

  method ClassifyQuery(q: CString) returns (kind: QueryKind)
    ensures kind == Classify(q)
  {
    var cursor := SkipSpaces(q, 0);
    var select := MatchKeyword(q, cursor, "SELECT");
    if select.Some? { return KindRead; }
    cursor := SkipSpaces(q, 0);
    var insert := MatchKeyword(q, cursor, "INSERT");
    kind := if insert.Some? then KindWrite else KindNone;
  }

  method GuessIndexUse(q: CString) returns (usesIndex: bool)
    ensures usesIndex == GuessUsesIndex(q)
  {
    var cursor := SkipSpaces(q, 0);
    var select := MatchKeyword(q, cursor, "SELECT");
    if select.None? { return false; }
    cursor := select.value;
    while At(q, cursor) != '\0'
      invariant cursor <= |q| && GuessFrom(q, cursor) == GuessFrom(q, select.value)
      decreases |q| - cursor
    {
      var where := MatchKeyword(q, cursor, "WHERE");
      if where.Some? {
        var column := ParseIdentifier(q, where.value, IDENTIFIER_SIZE);
        return column.Some? && SameWord(column.value.0, "id");
      }
      cursor := cursor + 1;
    }
    return false;
  }

  // ------------------------------------------------------------ lock sufficiency

  /** A keyword at the very start leaves no leading blanks to skip. */
  lemma NoLeadingBlanks(q: string, word: string)
    requires word != "" && IsAlpha(word[0]) && KeywordEnd(q, 0, word).Some?
    ensures SpacesEnd(q, 0) == 0
  {
  }

  /** Two different first letters cannot both stand at one position. */
  lemma OneKeyword(q: string, i: nat, a: string, b: string)
    requires a != "" && b != "" && Lower(a[0]) != Lower(b[0]) && KeywordEnd(q, i, a).Some?
    ensures KeywordEnd(q, i, b).None?
  {
  }

  /**
   For every query text, the lock chosen by the server covers what the executor does:
   only a WRITE query inserts, and only a READ query selects; a query run without a lock does neither.
   */
  lemma LockSuffices(q: string)
    ensures ParseStatement(q).InsertStatement? ==> Classify(q) == KindWrite
    ensures ParseStatement(q).SelectStatement? ==> Classify(q) == KindRead
  {
    if ParseStatement(q).InsertStatement? {
      assert KeywordEnd(q, 0, "INSERT").Some?;
      NoLeadingBlanks(q, "INSERT");
      OneKeyword(q, 0, "INSERT", "SELECT");
    } else if ParseStatement(q).SelectStatement? {
      assert KeywordEnd(q, 0, "SELECT").Some?;
      NoLeadingBlanks(q, "SELECT");
    }
  }

  /** A statement with leading blanks is classified, locked, and then refused by the executor. */
  lemma LeadingBlanksRefused(q: string)
    requires SpacesEnd(q, 0) > 0
    ensures !ParseStatement(q).InsertStatement? && !ParseStatement(q).SelectStatement?
  {
    if KeywordEnd(q, 0, "INSERT").Some? {
      NoLeadingBlanks(q, "INSERT");
    }
    if KeywordEnd(q, 0, "SELECT").Some? {
      NoLeadingBlanks(q, "SELECT");
    }
  }

  // ---------------------------------------------------------------- index guess

  predicate NoW(q: string, i: nat, j: nat) {
    i <= j <= |q| && forall k :: i <= k < j ==> Lower(q[k]) != 'w'
  }

  /** Where no letter w occurs, the scan for WHERE finds nothing and moves on. */
  lemma {:induction false} GuessSkips(q: string, i: nat, j: nat)
    requires NoW(q, i, j)
    ensures GuessFrom(q, i) == GuessFrom(q, j)
    decreases j - i
  {
    if i < j {
      assert KeywordEnd(q, i, "WHERE").None? by {
        if i + 5 <= |q| {
          assert q[i..i + 5][0] == q[i];
        }
      }
      GuessSkips(q, i + 1, j);
    }
  }

  lemma BlanksNoW(q: string, i: nat)
    requires i <= |q|
    ensures NoW(q, i, SpacesEnd(q, i))
  {
  }

  lemma TableNameNoW(q: string, i: nat)
    requires i <= |q| && IdentifierAt(q, i, IDENTIFIER_SIZE).Some?
    requires SameWord(IdentifierAt(q, i, IDENTIFIER_SIZE).value.0, "users")
    ensures NoW(q, i, IdentifierAt(q, i, IDENTIFIER_SIZE).value.1)
  {
  }

  lemma EndNoW(q: string, i: nat)
    requires i <= |q|
    ensures NoW(q, i, StatementEnd(q, i).1)
  {
  }

  lemma StarNoW(q: string, i: nat)
    requires i <= |q| && CharAt(q, SpacesEnd(q, i), '*').Some?
    ensures var star := CharAt(q, SpacesEnd(q, i), '*').value;
            star <= SpacesEnd(q, star) && NoW(q, i, SpacesEnd(q, star))
  {
  }

  lemma TailNoW(q: string, i: nat)
    requires i <= |q| && IdentifierAt(q, i, IDENTIFIER_SIZE).Some?
    requires SameWord(IdentifierAt(q, i, IDENTIFIER_SIZE).value.0, "users")
    ensures var table := IdentifierAt(q, i, IDENTIFIER_SIZE).value.1;
            NoW(q, i, StatementEnd(q, SpacesEnd(q, table)).1)
  {
    TableNameNoW(q, i);
    var table := IdentifierAt(q, i, IDENTIFIER_SIZE).value.1;
    BlanksNoW(q, table);
    EndNoW(q, SpacesEnd(q, table));
  }

  lemma FromNoW(q: string, i: nat)
    requires KeywordEnd(q, i, "FROM").Some?
    ensures NoW(q, i, i + 4)
  {
  }

  /** Up to its WHERE (or its end) an accepted SELECT contains no letter w. */
  lemma HeadNoW(q: string, i: nat, star: nat, from: nat)
    requires i <= |q| && CharAt(q, SpacesEnd(q, i), '*') == Some(star)
    requires KeywordEnd(q, SpacesEnd(q, star), "FROM") == Some(from)
    requires IdentifierAt(q, from, IDENTIFIER_SIZE).Some?
    requires SameWord(IdentifierAt(q, from, IDENTIFIER_SIZE).value.0, "users")
    ensures var table := IdentifierAt(q, from, IDENTIFIER_SIZE).value.1;
            NoW(q, i, StatementEnd(q, SpacesEnd(q, table)).1)
  {
    StarNoW(q, i);
    FromNoW(q, SpacesEnd(q, star));
    TailNoW(q, from);
  }

  /** For every accepted SELECT the textual guess is right: true exactly when the id index is used. */
  lemma GuessIsExact(q: string)
    ensures ParseStatement(q).SelectStatement? ==> (GuessUsesIndex(q) <==> ParseStatement(q).condition.IdIs?)
  {
    if ParseStatement(q).SelectStatement? {
      SelectGuess(q);
    }
  }

  lemma SelectGuess(q: string)
    requires KeywordEnd(q, 0, "SELECT").Some? && ParseSelect(q, KeywordEnd(q, 0, "SELECT").value).SelectStatement?
    ensures GuessUsesIndex(q) <==> ParseSelect(q, KeywordEnd(q, 0, "SELECT").value).condition.IdIs?
  {
    NoLeadingBlanks(q, "SELECT");
    var i := KeywordEnd(q, 0, "SELECT").value;
    var star := CharAt(q, SpacesEnd(q, i), '*').value;
    var from := KeywordEnd(q, SpacesEnd(q, star), "FROM").value;
    HeadNoW(q, i, star, from);
    var table := IdentifierAt(q, from, IDENTIFIER_SIZE).value.1;
    var end := StatementEnd(q, SpacesEnd(q, table));
    GuessSkips(q, i, end.1);
    if !end.0 {
      WhereDecides(q, KeywordEnd(q, end.1, "WHERE").value);
    }
  }

  lemma WhereDecides(q: string, i: nat)
    requires i <= |q| && ParseWhere(q, i).SelectStatement?
    ensures var column := IdentifierAt(q, i, IDENTIFIER_SIZE);
            column.Some? && (SameWord(column.value.0, "id") <==> ParseWhere(q, i).condition.IdIs?)
  {
  }

  /** Outside accepted SELECTs the guess can be wrong: a refused query may be reported as using the index. */
  lemma GuessWrongOnRefusedQuery()
    ensures GuessUsesIndex("SELECT WHERE id") && ParseStatement("SELECT WHERE id").Rejected?
  {
    var q := "SELECT WHERE id";
    assert q[0..6] == "SELECT";
    assert SpacesEnd(q, 0) == 0;
    assert KeywordEnd(q, 0, "SELECT") == Some(6);
    assert q[7..12] == "WHERE";
    assert KeywordEnd(q, 7, "WHERE") == Some(12);
    assert KeywordEnd(q, 6, "WHERE").None? by { assert q[6..11][0] == ' '; }
    assert WordEnd(q, 13) == 15;
    assert q[13..15] == "id";
    assert KeywordEnd(q, 0, "EXIT").None? by { assert q[0..4][0] == 'S'; }
    assert KeywordEnd(q, 0, "QUIT").None? by { assert q[0..4][0] == 'S'; }
    assert KeywordEnd(q, 0, "INSERT").None? by { assert q[0..6][0] == 'S'; }
    assert SpacesEnd(q, 6) == 7;
  }
}
