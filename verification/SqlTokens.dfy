/**
 The words of the SQL syntax as strings, and what the cursor helpers make of
 them: each helper reads a word that stands at the cursor, and whatever it has
 read was such a word.
 */
module SqlTokens {
  import opened Records
  import opened SqlText
  import opened Sql

  // -------------------------------------------------------------------- words

  predicate Gap(g: string) {
    forall i :: 0 <= i < |g| ==> IsSpace(g[i])
  }

  predicate Letters(w: string) {
    w != "" && forall i :: 0 <= i < |w| ==> IsAlpha(w[i])
  }

  /** A word that fits the identifier buffer. */
  predicate Identifier(w: string) {
    && 0 < |w| < IDENTIFIER_SIZE && (IsAlpha(w[0]) || w[0] == '_')
    && forall i :: 0 <= i < |w| ==> IsWord(w[i])
  }

  predicate IsDigits(d: string) {
    d != "" && forall i :: 0 <= i < |d| ==> IsDigit(d[i])
  }

  /** n is a numeral that the reader turns into v. */
  predicate IsNumber(n: string, v: int) {
    if n != "" && n[0] == '-' then IsDigits(n[1..]) && v == ToInt(0 - Digits(n[1..], 0, |n| - 1))
    else IsDigits(n) && v == ToInt(Digits(n, 0, |n|))
  }

  /** A string literal the syntax can express. */
  predicate Quotable(s: string) {
    |s| < NAME_SIZE && forall i :: 0 <= i < |s| ==> s[i] != '\''
  }

  function OpText(op: Comparison): string {
    match op
    case Eq => "="
    case Lt => "<"
    case Le => "<="
    case Gt => ">"
    case Ge => ">="
  }

  /** The end of a statement: blanks with at most one semicolon among them. */
  datatype Close = Bare(gap: string) | Semicolon(before: string, after: string)

  function CloseText(c: Close): string {
    match c
    case Bare(g) => g
    case Semicolon(b, a) => b + (";" + a)
  }

  predicate IsClose(c: Close) {
    match c
    case Bare(g) => Gap(g)
    case Semicolon(b, a) => Gap(b) && Gap(a)
  }

  /** No word goes on here. */
  predicate Breaks(rest: string) {
    !IsWord(At(rest, 0))
  }

  lemma GapBreaks(g: string, rest: string)
    requires Gap(g) && (g != "" || Breaks(rest))
    ensures Breaks(g + rest)
  {
  }

  lemma CloseBreaks(c: Close, rest: string)
    requires IsClose(c) && (CloseText(c) != "" || Breaks(rest))
    ensures Breaks(CloseText(c) + rest)
  {
  }

  lemma CloseAlone(c: Close)
    requires IsClose(c)
    ensures Breaks(CloseText(c)) && At(CloseText(c), 0) != '=' && CloseText(c) + "" == CloseText(c)
  {
  }

  /** A word that differs from a keyword in letter case only consists of letters too. */
  lemma SameLetters(w: string, word: string)
    requires SameWord(w, word) && Letters(word)
    ensures Letters(w)
  {
    forall i | 0 <= i < |w| ensures IsAlpha(w[i]) {
      assert Lower(w[i]) == Lower(word[i]) && IsAlpha(word[i]);
    }
  }

  // ----------------------------------------------- a word that stands at the cursor

  /** If the text from i on starts with a, then a stands at i and the rest comes after it. */
  lemma Split(t: string, i: nat, a: string, rest: string)
    requires i <= |t| && t[i..] == a + rest
    ensures i + |a| <= |t| && t[i..i + |a|] == a && t[i + |a|..] == rest
    ensures forall k :: i <= k < i + |a| ==> t[k] == a[k - i]
    ensures At(t, i + |a|) == At(rest, 0)
  {
    assert t[i..i + |a|] == t[i..][..|a|] == a;
    assert t[i + |a|..] == t[i..][|a|..] == rest;
    forall k | i <= k < i + |a| ensures t[k] == a[k - i] {
      assert t[k] == t[i..][k - i];
    }
  }

  lemma {:induction false} SpaceRun(t: string, i: nat, j: nat)
    requires i <= j <= |t| && (forall k :: i <= k < j ==> IsSpace(t[k])) && !IsSpace(At(t, j))
    ensures SpacesEnd(t, i) == j
    decreases j - i
  {
    if i < j {
      SpaceRun(t, i + 1, j);
    }
  }

  lemma {:induction false} WordRun(t: string, i: nat, j: nat)
    requires i <= j <= |t| && (forall k :: i <= k < j ==> IsWord(t[k])) && !IsWord(At(t, j))
    ensures WordEnd(t, i) == j
    decreases j - i
  {
    if i < j {
      WordRun(t, i + 1, j);
    }
  }

  lemma {:induction false} DigitRun(t: string, i: nat, j: nat)
    requires i <= j <= |t| && (forall k :: i <= k < j ==> IsDigit(t[k])) && !IsDigit(At(t, j))
    ensures DigitsEnd(t, i) == j
    decreases j - i
  {
    if i < j {
      DigitRun(t, i + 1, j);
    }
  }

  lemma {:induction false} QuoteRun(t: string, i: nat, j: nat)
    requires i <= j < |t| && (forall k :: i <= k < j ==> t[k] != '\'') && t[j] == '\''
    ensures QuoteEnd(t, i) == j
    decreases j - i
  {
    if i < j {
      QuoteRun(t, i + 1, j);
    }
  }

  lemma GapRead(t: string, i: nat, g: string, rest: string)
    requires i <= |t| && t[i..] == g + rest && Gap(g) && !IsSpace(At(rest, 0))
    ensures i + |g| <= |t| && SpacesEnd(t, i) == i + |g| && t[i + |g|..] == rest
  {
    Split(t, i, g, rest);
    SpaceRun(t, i, i + |g|);
  }

  lemma KeywordRead(t: string, i: nat, w: string, word: string, rest: string)
    requires i <= |t| && t[i..] == w + rest && SameWord(w, word) && Breaks(rest)
    ensures KeywordEnd(t, i, word) == Some(i + |w|) && t[i + |w|..] == rest
  {
    Split(t, i, w, rest);
  }

  /** A keyword after blanks. */
  lemma NextKeywordRead(t: string, i: nat, g: string, w: string, word: string, rest: string)
    requires i <= |t| && t[i..] == g + (w + rest) && Gap(g) && SameWord(w, word) && Letters(word) && Breaks(rest)
    ensures SpacesEnd(t, i) == i + |g| && KeywordEnd(t, i + |g|, word) == Some(i + |g| + |w|)
    ensures i + |g| + |w| <= |t| && t[i + |g| + |w|..] == rest
  {
    SameLetters(w, word);
    assert (w + rest)[0] == w[0];
    GapRead(t, i, g, w + rest);
    KeywordRead(t, i + |g|, w, word, rest);
  }

  lemma IdentifierRead(t: string, i: nat, g: string, w: string, rest: string)
    requires i <= |t| && t[i..] == g + (w + rest) && Gap(g) && Identifier(w) && Breaks(rest)
    ensures IdentifierAt(t, i, IDENTIFIER_SIZE) == Some((w, i + |g| + |w|))
    ensures i + |g| + |w| <= |t| && t[i + |g| + |w|..] == rest
  {
    assert (w + rest)[0] == w[0];
    GapRead(t, i, g, w + rest);
    Split(t, i + |g|, w, rest);
    WordRun(t, i + |g|, i + |g| + |w|);
    assert At(t, i + |g|) == w[0];
  }

  lemma CharRead(t: string, i: nat, g: string, c: char, rest: string)
    requires i <= |t| && t[i..] == g + ([c] + rest) && Gap(g) && c != '\0' && !IsSpace(c)
    ensures CharAt(t, i, c) == Some(i + |g| + 1) && i + |g| + 1 <= |t| && t[i + |g| + 1..] == rest
  {
    GapRead(t, i, g, [c] + rest);
    Split(t, i + |g|, [c], rest);
  }

  /** The helpers skip blanks first, so they read at the end of the blanks what they read before them. */
  lemma BlanksSkipped(t: string, i: nat)
    requires i <= |t|
    ensures var j := SpacesEnd(t, i);
            && SpacesEnd(t, j) == j
            && StringAt(t, i, NAME_SIZE) == StringAt(t, j, NAME_SIZE)
            && IntAt(t, i) == IntAt(t, j)
            && StatementEnd(t, i) == StatementEnd(t, j)
  {
    hide QuoteEnd, DigitsEnd, Digits;
  }

  /** Where the parts of a quoted text stand. */
  lemma QuotedParts(t: string, j: nat, s: string, rest: string)
    requires j <= |t| && t[j..] == "'" + (s + ("'" + rest))
    ensures j + |s| + 2 <= |t| && t[j + |s| + 2..] == rest
    ensures t[j] == '\'' && t[j + |s| + 1] == '\'' && t[j + 1..j + 1 + |s|] == s
  {
    Split(t, j, "'", s + ("'" + rest));
    assert t[j + 1..] == s + ("'" + rest);
    Split(t, j + 1, s, "'" + rest);
    assert t[j + 1 + |s|..] == "'" + rest;
    Split(t, j + 1 + |s|, "'", rest);
  }

  lemma QuotedRead(t: string, j: nat, s: string)
    requires j + |s| + 2 <= |t| && Quotable(s)
    requires t[j] == '\'' && t[j + |s| + 1] == '\'' && t[j + 1..j + 1 + |s|] == s
    ensures StringAt(t, j, NAME_SIZE) == Some((s, j + |s| + 2))
  {
    hide QuoteEnd;
    forall k | j + 1 <= k < j + 1 + |s| ensures t[k] != '\'' {
      assert t[k] == s[k - j - 1];
    }
    QuoteRun(t, j + 1, j + 1 + |s|);
  }

  lemma StringRead(t: string, i: nat, g: string, s: string, rest: string)
    requires i <= |t| && t[i..] == g + ("'" + (s + ("'" + rest))) && Gap(g) && Quotable(s)
    ensures StringAt(t, i, NAME_SIZE) == Some((s, i + |g| + |s| + 2))
    ensures i + |g| + |s| + 2 <= |t| && t[i + |g| + |s| + 2..] == rest
  {
    hide StringAt, Quotable, SpacesEnd;
    GapRead(t, i, g, "'" + (s + ("'" + rest)));
    BlanksSkipped(t, i);
    QuotedParts(t, i + |g|, s, rest);
    QuotedRead(t, i + |g|, s);
  }

  lemma {:induction false} DigitsOfPrefix(d: string, n: nat)
    requires n <= |d| && forall i :: 0 <= i < |d| ==> IsDigit(d[i])
    ensures Digits(d, 0, n) == Digits(d[..n], 0, n)
    decreases n
  {
    if n > 0 {
      DigitsOfPrefix(d, n - 1);
      DigitsOfPrefix(d[..n], n - 1);
      assert d[..n][..n - 1] == d[..n - 1];
    }
  }

  /** Digits count the same wherever they stand. */
  lemma {:induction false} DigitsMoved(t: string, k: nat, e: nat, d: string)
    requires k <= e <= |t| && t[k..e] == d && forall i :: 0 <= i < |d| ==> IsDigit(d[i])
    ensures forall i :: k <= i < e ==> IsDigit(t[i])
    ensures Digits(t, k, e) == Digits(d, 0, |d|)
  {
    forall i | k <= i < e ensures t[i] == d[i - k] {
    }
    if k < e {
      DigitsMoved(t, k, e - 1, d[..|d| - 1]);
      DigitsOfPrefix(d, |d| - 1);
    }
  }

  /** What the integer reader returns, given where its digits begin and end. */
  lemma IntValue(t: string, i: nat, k: nat, e: nat)
    requires i <= |t| && var j := SpacesEnd(t, i);
             j < |t| && (IsDigit(t[j]) || t[j] == '-') && k == (if t[j] == '-' then j + 1 else j) &&
                 k < e == DigitsEnd(t, k)
    ensures var j := SpacesEnd(t, i);
            IntAt(t, i) == Some((ToInt(if t[j] == '-' then 0 - Digits(t, k, e) else Digits(t, k, e)), e))
  {
    hide DigitsEnd, Digits, SpacesEnd;
  }

  /** The digits d stand at k, and no digit follows them. */
  lemma DigitsRead(t: string, k: nat, d: string)
    requires k + |d| <= |t| && t[k..k + |d|] == d && IsDigits(d) && !IsDigit(At(t, k + |d|))
    ensures DigitsEnd(t, k) == k + |d| && IsDigit(t[k])
    ensures Digits(t, k, k + |d|) == Digits(d, 0, |d|)
  {
    hide Digits, DigitsEnd;
    DigitsMoved(t, k, k + |d|, d);
    hide IsDigits;
    DigitRun(t, k, k + |d|);
  }

  lemma NumberRead(t: string, j: nat, n: string, v: int)
    requires j + |n| <= |t| && t[j..j + |n|] == n && IsNumber(n, v) && !IsDigit(At(t, j + |n|)) && SpacesEnd(t, j) == j
    ensures IntAt(t, j) == Some((v, j + |n|))
  {
    hide DigitsEnd, Digits;
    if n[0] == '-' {
      assert t[j + 1..j + 1 + |n[1..]|] == n[1..] && t[j] == n[0];
      DigitsRead(t, j + 1, n[1..]);
      IntValue(t, j, j + 1, j + |n|);
    } else {
      DigitsRead(t, j, n);
      IntValue(t, j, j, j + |n|);
    }
  }

  lemma IntRead(t: string, i: nat, g: string, n: string, v: int, rest: string)
    requires i <= |t| && t[i..] == g + (n + rest) && Gap(g) && IsNumber(n, v) && Breaks(rest)
    ensures IntAt(t, i) == Some((v, i + |g| + |n|)) && i + |g| + |n| <= |t| && t[i + |g| + |n|..] == rest
  {
    hide *;
    NumberStands(t, i, g, n, v, rest);
    BlanksSkipped(t, i);
    NumberRead(t, i + |g|, n, v);
  }

  lemma NumberStands(t: string, i: nat, g: string, n: string, v: int, rest: string)
    requires i <= |t| && t[i..] == g + (n + rest) && Gap(g) && IsNumber(n, v) && Breaks(rest)
    ensures SpacesEnd(t, i) == i + |g| && i + |g| + |n| <= |t| && t[i + |g| + |n|..] == rest
    ensures t[i + |g|..i + |g| + |n|] == n && !IsDigit(At(t, i + |g| + |n|))
  {
    NumberStart(n, v, rest);
    hide IsNumber, SpacesEnd;
    GapRead(t, i, g, n + rest);
    Split(t, i + |g|, n, rest);
  }

  lemma NumberStart(n: string, v: int, rest: string)
    requires IsNumber(n, v)
    ensures n != "" && !IsSpace(At(n + rest, 0)) && At(n + rest, 0) != '='
  {
    assert (n + rest)[0] == n[0];
  }

  lemma ComparisonRead(t: string, i: nat, g: string, op: Comparison, rest: string)
    requires i <= |t| && t[i..] == g + (OpText(op) + rest) && Gap(g)
    requires op == Lt || op == Gt ==> At(rest, 0) != '='
    ensures ComparisonAt(t, i) == Some((op, i + |g| + |OpText(op)|))
    ensures i + |g| + |OpText(op)| <= |t| && t[i + |g| + |OpText(op)|..] == rest
  {
    hide SpacesEnd;
    var j, o := i + |g|, OpText(op);
    assert (o + rest)[0] == o[0];
    GapRead(t, i, g, o + rest);
    Split(t, j, o, rest);
    assert At(t, j + 1) == At(o + rest, 1);
  }

  /** A closing text followed by the end or by a word: the cursor stays behind it. */
  lemma CloseRead(t: string, i: nat, c: Close, rest: string)
    requires i <= |t| && t[i..] == CloseText(c) + rest && IsClose(c) && (rest == "" || IsAlpha(rest[0]))
    ensures StatementEnd(t, i) == (rest == "", i + |CloseText(c)|)
    ensures i + |CloseText(c)| <= |t| && t[i + |CloseText(c)|..] == rest
  {
    hide StatementEnd, SpacesEnd;
    if c.Bare? {
      BareRead(t, i, c.gap, rest);
    } else {
      SemicolonJoin(c.before, c.after, rest);
      SemicolonRead(t, i, c.before, c.after, rest);
    }
  }

  lemma BareRead(t: string, i: nat, g: string, rest: string)
    requires i <= |t| && t[i..] == g + rest && Gap(g) && (rest == "" || IsAlpha(rest[0]))
    ensures StatementEnd(t, i) == (rest == "", i + |g|) && i + |g| <= |t| && t[i + |g|..] == rest
  {
    GapRead(t, i, g, rest);
    BareEnds(t, i, i + |g|, rest);
  }

  lemma BareEnds(t: string, i: nat, j: nat, rest: string)
    requires i <= j <= |t| && SpacesEnd(t, i) == j && t[j..] == rest && (rest == "" || IsAlpha(rest[0]))
    ensures StatementEnd(t, i) == (rest == "", j)
  {
    assert At(t, j) == At(rest, 0);
    BlanksSkipped(t, i);
  }

  lemma SemicolonJoin(b: string, a: string, rest: string)
    ensures b + (";" + a) + rest == b + (";" + (a + rest))
  {
  }

  lemma SemicolonRead(t: string, i: nat, b: string, a: string, rest: string)
    requires i <= |t| && t[i..] == b + (";" + (a + rest)) && Gap(b) && Gap(a) && (rest == "" || IsAlpha(rest[0]))
    ensures i + |b| + 1 + |a| <= |t| && t[i + |b| + 1 + |a|..] == rest
    ensures StatementEnd(t, i) == (rest == "", i + |b| + 1 + |a|)
  {
    hide StatementEnd, Gap, SpacesEnd;
    GapRead(t, i, b, ";" + (a + rest));
    Split(t, i + |b|, ";", a + rest);
    GapRead(t, i + |b| + 1, a, rest);
    SemicolonEnds(t, i, i + |b|, i + |b| + 1 + |a|);
  }

  lemma SemicolonEnds(t: string, i: nat, j: nat, e: nat)
    requires i <= j < |t| && SpacesEnd(t, i) == j && t[j] == ';' && SpacesEnd(t, j + 1) == e
    ensures StatementEnd(t, i) == (t[e..] == "", e)
  {
  }

  // ------------------------------------------------------ what the cursor has passed

  lemma Cut(t: string, i: nat, j: nat)
    requires i <= j <= |t|
    ensures t[i..] == t[i..j] + t[j..] && At(t, j) == At(t[j..], 0)
  {
  }

  lemma GapBack(t: string, i: nat) returns (g: string)
    requires i <= |t|
    ensures Gap(g) && |g| == SpacesEnd(t, i) - i && t[i..] == g + t[SpacesEnd(t, i)..]
  {
    g := t[i..SpacesEnd(t, i)];
    Cut(t, i, SpacesEnd(t, i));
  }

  lemma KeywordBack(t: string, i: nat, word: string, e: nat) returns (w: string)
    requires KeywordEnd(t, i, word) == Some(e)
    ensures i <= e <= |t| && SameWord(w, word) && t[i..] == w + t[e..] && !IsWord(At(t, e))
  {
    w := t[i..e];
    Cut(t, i, e);
  }

  /** Blanks between two words cannot be missing. */
  lemma NextKeywordBack(t: string, i: nat, word: string, e: nat) returns (g: string, w: string)
    requires i <= |t| && KeywordEnd(t, SpacesEnd(t, i), word) == Some(e) && Letters(word)
    ensures i <= e <= |t| && Gap(g) && SameWord(w, word) && t[i..] == g + (w + t[e..])
    ensures !IsWord(At(t, e)) && (!IsWord(At(t, i)) ==> g != "")
  {
    g := GapBack(t, i);
    var j := SpacesEnd(t, i);
    w := KeywordBack(t, j, word, e);
    SameLetters(w, word);
    assert t[j] == t[j..][0] == w[0];
  }

  lemma IdentifierBack(t: string, i: nat, w: string, e: nat) returns (g: string)
    requires i <= |t| && IdentifierAt(t, i, IDENTIFIER_SIZE) == Some((w, e))
    ensures i <= e <= |t| && Gap(g) && t[i..] == g + (w + t[e..]) && !IsWord(At(t, e))
    ensures Identifier(w) && (!IsWord(At(t, i)) ==> g != "")
  {
    hide SpacesEnd, WordEnd;
    g := GapBack(t, i);
    Cut(t, SpacesEnd(t, i), e);
  }

  lemma CharBack(t: string, i: nat, c: char, e: nat) returns (g: string)
    requires i <= |t| && c != '\0' && CharAt(t, i, c) == Some(e)
    ensures i <= e <= |t| && Gap(g) && t[i..] == g + ([c] + t[e..])
  {
    g := GapBack(t, i);
    Cut(t, SpacesEnd(t, i), e);
    assert t[SpacesEnd(t, i)..e] == [c];
  }

  lemma QuotedParse(t: string, j: nat)
    requires j <= |t| && SpacesEnd(t, j) == j && StringAt(t, j, NAME_SIZE).Some?
    ensures j < |t| && t[j] == '\''
    ensures var q := QuoteEnd(t, j + 1);
            q < |t| && q - (j + 1) < NAME_SIZE && StringAt(t, j, NAME_SIZE).value == (t[j + 1..q], q + 1)
  {
    hide QuoteEnd, SpacesEnd;
  }

  lemma QuotedBack(t: string, j: nat, s: string, e: nat)
    requires j <= |t| && SpacesEnd(t, j) == j && StringAt(t, j, NAME_SIZE) == Some((s, e))
    ensures j + 2 <= e <= |t| && s == t[j + 1..e - 1] && t[j] == '\'' && t[e - 1] == '\''
    ensures |s| < NAME_SIZE && forall k :: j + 1 <= k < e - 1 ==> t[k] != '\''
  {
    hide QuoteEnd, SpacesEnd, StringAt;
    QuotedParse(t, j);
    assert StringAt(t, j, NAME_SIZE).value.1 == e;
    assert StringAt(t, j, NAME_SIZE).value.0 == s;
  }

  lemma QuotedJoin(t: string, j: nat, e: nat)
    requires j + 2 <= e <= |t| && t[j] == '\'' && t[e - 1] == '\''
    ensures t[j..] == "'" + (t[j + 1..e - 1] + ("'" + t[e..]))
  {
    assert t[e - 1..] == "'" + t[e..];
    assert t[j + 1..] == t[j + 1..e - 1] + t[e - 1..];
  }

  lemma StringBack(t: string, i: nat, s: string, e: nat) returns (g: string)
    requires i <= |t| && StringAt(t, i, NAME_SIZE) == Some((s, e))
    ensures i <= e <= |t| && Gap(g) && Quotable(s) && t[i..] == g + ("'" + (s + ("'" + t[e..])))
  {
    hide StringAt, SpacesEnd, Gap;
    g := GapBack(t, i);
    BlanksSkipped(t, i);
    QuotedBack(t, SpacesEnd(t, i), s, e);
    QuotedJoin(t, SpacesEnd(t, i), e);
  }

  lemma NumberBack(t: string, j: nat, v: int, e: nat)
    requires j <= |t| && SpacesEnd(t, j) == j && IntAt(t, j) == Some((v, e))
    ensures j <= e <= |t| && IsNumber(t[j..e], v)
  {
    hide DigitsEnd, Digits;
    var n := t[j..e];
    assert n[0] == t[j];
    if t[j] == '-' {
      assert n[1..] == t[j + 1..e];
      DigitsBack(t, j + 1, e);
    } else {
      DigitsBack(t, j, e);
    }
  }

  lemma DigitsBack(t: string, k: nat, e: nat)
    requires k < e <= |t| && forall i :: k <= i < e ==> IsDigit(t[i])
    ensures IsDigits(t[k..e]) && Digits(t, k, e) == Digits(t[k..e], 0, e - k)
  {
    DigitsMoved(t, k, e, t[k..e]);
  }

  lemma IntBack(t: string, i: nat, v: int, e: nat) returns (g: string, n: string)
    requires i <= |t| && IntAt(t, i) == Some((v, e))
    ensures i <= e <= |t| && Gap(g) && IsNumber(n, v) && t[i..] == g + (n + t[e..])
  {
    g := GapBack(t, i);
    BlanksSkipped(t, i);
    hide IntAt, IsNumber, SpacesEnd, Gap;
    var j := SpacesEnd(t, i);
    NumberBack(t, j, v, e);
    n := t[j..e];
    Cut(t, j, e);
  }

  lemma ComparisonBack(t: string, i: nat, op: Comparison, e: nat) returns (g: string)
    requires i <= |t| && ComparisonAt(t, i) == Some((op, e))
    ensures i <= e <= |t| && Gap(g) && t[i..] == g + (OpText(op) + t[e..])
    ensures op == Lt || op == Gt ==> At(t, e) != '='
  {
    hide SpacesEnd;
    g := GapBack(t, i);
    var j := SpacesEnd(t, i);
    Cut(t, j, e);
    assert t[j..e] == OpText(op);
  }

  lemma CloseBack(t: string, i: nat) returns (c: Close)
    requires i <= |t|
    ensures IsClose(c) && var e := StatementEnd(t, i).1; i <= e <= |t| && t[i..] == CloseText(c) + t[e..]
    ensures StatementEnd(t, i).0 ==> t[i..] == CloseText(c)
  {
    var g := GapBack(t, i);
    var j := SpacesEnd(t, i);
    if At(t, j) == ';' {
      var h := GapBack(t, j + 1);
      c := Semicolon(g, h);
      SemicolonEnds(t, i, j, SpacesEnd(t, j + 1));
      SemicolonFound(t, i, j, SpacesEnd(t, j + 1), g, h);
    } else {
      c := Bare(g);
      BlanksSkipped(t, i);
    }
  }

  lemma SemicolonFound(t: string, i: nat, j: nat, e: nat, g: string, h: string)
    requires i <= j < e <= |t| && t[i..] == g + t[j..] && t[j] == ';' && t[j + 1..] == h + t[e..]
    ensures t[i..] == g + (";" + h) + t[e..]
  {
    assert t[j..] == ";" + t[j + 1..];
    SemicolonJoin(g, h, t[e..]);
  }
}
