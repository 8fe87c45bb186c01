/**
 The lexical layer of the SQL executor: what each cursor helper recognises at a
 position of a NUL-terminated string, and the loops that compute it.
 */
module SqlText {
  import opened Records

  datatype Option<+T> = None | Some(value: T)

  /** A C string: its terminator is not part of it. */
  type CString = s: string | forall i :: 0 <= i < |s| ==> s[i] != '\0' witness ""

  /** The character under the cursor; the terminator at the end. */
  function At(s: string, i: nat): char {
    if i < |s| then s[i] else '\0'
  }

  predicate IsSpace(c: char) {
    c == ' ' || 9 as char <= c <= 13 as char
  }

  predicate IsDigit(c: char) {
    '0' <= c <= '9'
  }

  predicate IsAlpha(c: char) {
    'a' <= c <= 'z' || 'A' <= c <= 'Z'
  }

  predicate IsWord(c: char) {
    IsAlpha(c) || IsDigit(c) || c == '_'
  }

  function Lower(c: char): char {
    if 'A' <= c <= 'Z' then (c as int + 32) as char else c
  }

  /** Equality up to letter case. */
  predicate SameWord(a: string, b: string) {
    |a| == |b| && forall i :: 0 <= i < |a| ==> Lower(a[i]) == Lower(b[i])
  }

  // ----------------------------------------------------------- what is there

  function SpacesEnd(s: string, i: nat): (r: nat)
    requires i <= |s|
    ensures i <= r <= |s| && !IsSpace(At(s, r))
    ensures forall k :: i <= k < r ==> IsSpace(s[k])
    decreases |s| - i
  {
    if i < |s| && IsSpace(s[i]) then SpacesEnd(s, i + 1) else i
  }

  function WordEnd(s: string, i: nat): (r: nat)
    requires i <= |s|
    ensures i <= r <= |s| && !IsWord(At(s, r))
    ensures forall k :: i <= k < r ==> IsWord(s[k])
    decreases |s| - i
  {
    if i < |s| && IsWord(s[i]) then WordEnd(s, i + 1) else i
  }

  /** The keyword stands at i and ends at a token boundary. */
  function KeywordEnd(s: string, i: nat, word: string): (r: Option<nat>)
    ensures r.Some? ==> r.value <= |s| && r.value == i + |word| && SameWord(s[i..i + |word|], word)
  {
    if i + |word| <= |s| && SameWord(s[i..i + |word|], word) && !IsWord(At(s, i + |word|))
    then Some(i + |word|) else None
  }

  /** An identifier that fits a buffer of the given size, after blanks. */
  function IdentifierAt(s: string, i: nat, size: nat): (r: Option<(string, nat)>)
    requires i <= |s|
    ensures r.Some? ==> i < r.value.1 <= |s|
  {
    var j := SpacesEnd(s, i);
    if !(IsAlpha(At(s, j)) || At(s, j) == '_') then None else
    var e := WordEnd(s, j);
    if e - j >= size then None else Some((s[j..e], e))
  }

  function QuoteEnd(s: string, i: nat): (r: nat)
    requires i <= |s|
    ensures i <= r <= |s| && (r < |s| ==> s[r] == '\'')
    ensures forall k :: i <= k < r ==> s[k] != '\''
    decreases |s| - i
  {
    if i < |s| && s[i] != '\'' then QuoteEnd(s, i + 1) else i
  }

  /** A single-quoted literal that fits a buffer of the given size, after blanks. */
  function StringAt(s: string, i: nat, size: nat): (r: Option<(string, nat)>)
    requires i <= |s|
    ensures r.Some? ==> i < r.value.1 <= |s| && |r.value.0| < size
  {
    var j := SpacesEnd(s, i);
    if At(s, j) != '\'' then None else
    var e := QuoteEnd(s, j + 1);
    if e == |s| || e - (j + 1) >= size then None else Some((s[j + 1..e], e + 1))
  }

  function DigitsEnd(s: string, i: nat): (r: nat)
    requires i <= |s|
    ensures i <= r <= |s| && !IsDigit(At(s, r))
    ensures forall k :: i <= k < r ==> IsDigit(s[k])
    decreases |s| - i
  {
    if i < |s| && IsDigit(s[i]) then DigitsEnd(s, i + 1) else i
  }

  function DigitValue(c: char): nat
    requires IsDigit(c)
  {
    c as int - '0' as int
  }

  /** The number written in positions k..e. */
  function Digits(s: string, k: nat, e: nat): nat
    requires k <= e <= |s| && forall i :: k <= i < e ==> IsDigit(s[i])
  {
    if k == e then 0 else 10 * Digits(s, k, e - 1) + DigitValue(s[e - 1])
  }

  const LONG_MAX: int := 0x7FFF_FFFF_FFFF_FFFF
  const INT_MAX: int := 0x7FFF_FFFF

  /** strtol saturates to a 64-bit long. */
  function ToLong(v: int): int {
    if v > LONG_MAX then LONG_MAX else if v < -LONG_MAX - 1 then -LONG_MAX - 1 else v
  }

  /** The cast of a long to int keeps the low 32 bits. */
  function LowBits(v: int): (r: int)
    ensures -INT_MAX - 1 <= r <= INT_MAX
  {
    (v + 0x8000_0000) % 0x1_0000_0000 - 0x8000_0000
  }

  /** A number too large for an int is clamped and cut; any other is kept. */
  function ToInt(v: int): (r: int)
    ensures -INT_MAX - 1 <= r <= INT_MAX
  {
    if -INT_MAX - 1 <= v <= INT_MAX then v else LowBits(ToLong(v))
  }

  /**
   Clamping and cutting keeps every int, so the distinction in ToInt changes nothing; a number that fits a long
   is kept modulo 2^32, and one beyond a long becomes -1 or 0.
   */
  lemma ToIntIsCast(v: int)
    ensures ToInt(v) == LowBits(ToLong(v))
    ensures -0x8000_0000 <= v <= 0x7FFF_FFFF ==> ToInt(v) == v
    ensures -0x8000_0000_0000_0000 <= v <= 0x7FFF_FFFF_FFFF_FFFF ==> (ToInt(v) - v) % 0x1_0000_0000 == 0
    ensures v > 0x7FFF_FFFF_FFFF_FFFF ==> ToInt(v) == -1
    ensures v < -0x8000_0000_0000_0000 ==> ToInt(v) == 0
  {
  }

  /** A signed decimal integer after blanks. */
  function IntAt(s: string, i: nat): (r: Option<(int, nat)>)
    requires i <= |s|
    ensures r.Some? ==> i < r.value.1 <= |s|
  {
    var j := SpacesEnd(s, i);
    if !(IsDigit(At(s, j)) || At(s, j) == '-') then None else
    var k := if At(s, j) == '-' then j + 1 else j;
    var e := DigitsEnd(s, k);
    if e == k then None else
    var v: int := Digits(s, k, e);
    Some((ToInt(if At(s, j) == '-' then -v else v), e))
  }

  function ComparisonAt(s: string, i: nat): (r: Option<(Comparison, nat)>)
    requires i <= |s|
    ensures r.Some? ==> i < r.value.1 <= |s|
  {
    var j := SpacesEnd(s, i);
    if At(s, j) == '>' && At(s, j + 1) == '=' then Some((Ge, j + 2))
    else if At(s, j) == '<' && At(s, j + 1) == '=' then Some((Le, j + 2))
    else if At(s, j) == '>' then Some((Gt, j + 1))
    else if At(s, j) == '<' then Some((Lt, j + 1))
    else if At(s, j) == '=' then Some((Eq, j + 1))
    else None
  }

  /** A punctuation mark after blanks. */
  function CharAt(s: string, i: nat, expected: char): (r: Option<nat>)
    requires i <= |s| && expected != '\0'
    ensures r.Some? ==> i < r.value <= |s|
  {
    var j := SpacesEnd(s, i);
    if At(s, j) == expected then Some(j + 1) else None
  }

  /** An optional semicolon among trailing blanks: whether the input ends there, and where the cursor stays. */
  function StatementEnd(s: string, i: nat): (r: (bool, nat))
    requires i <= |s|
    ensures i <= r.1 <= |s|
  {
    var j := SpacesEnd(s, i);
    var k := if At(s, j) == ';' then j + 1 else j;
    var e := SpacesEnd(s, k);
    (e == |s|, e)
  }

  // ---------------------------------------------------------------- the loops

  method SkipSpaces(s: CString, cursor: nat) returns (next: nat)
    requires cursor <= |s|
    ensures next == SpacesEnd(s, cursor)
  {
    next := cursor;
    while At(s, next) != '\0' && IsSpace(At(s, next))
      invariant cursor <= next <= |s|
      invariant SpacesEnd(s, next) == SpacesEnd(s, cursor)
      decreases |s| - next
    {
      next := next + 1;
    }
  }

  method MatchKeyword(s: CString, cursor: nat, keyword: CString) returns (next: Option<nat>)
    requires cursor <= |s|
    ensures next == KeywordEnd(s, cursor, keyword)
  {
    var start, word := cursor, 0;
    while At(keyword, word) != '\0'
      invariant word <= |keyword| && start == cursor + word <= |s|
      invariant forall k :: 0 <= k < word ==> Lower(s[cursor + k]) == Lower(keyword[k])
      decreases |keyword| - word
    {
      if Lower(At(s, start)) != Lower(keyword[word]) {
        assert start < |s| && cursor + |keyword| <= |s| ==> s[cursor..cursor + |keyword|][word] == s[start];
        return None;
      }
      start := start + 1;
      word := word + 1;
    }
    assert SameWord(s[cursor..cursor + |keyword|], keyword);
    next := if IsWord(At(s, start)) then None else Some(start);
  }

  /** Reads an identifier; characters beyond the buffer are counted but not stored. */
  method ParseIdentifier(s: CString, cursor: nat, size: nat) returns (r: Option<(string, nat)>)
    requires cursor <= |s| && size > 0
    ensures r == IdentifierAt(s, cursor, size)
  {
    var start := SkipSpaces(s, cursor);
    if !(IsAlpha(At(s, start)) || At(s, start) == '_') {
      return None;
    }
    var next, length, buffer := start, 0, "";
    while IsWord(At(s, next)) && length + 1 < size
      invariant start <= next <= |s| && length == next - start && length < size
      invariant buffer == s[start..next] && WordEnd(s, next) == WordEnd(s, start)
      decreases |s| - next
    {
      assert s[start..next + 1] == s[start..next] + [s[next]];
      buffer := buffer + [s[next]];
      length := length + 1;
      next := next + 1;
    }
    ghost var stored := next;
    while IsWord(At(s, next))
      invariant stored <= next <= |s| && length == next - start
      invariant WordEnd(s, next) == WordEnd(s, start)
      invariant next > stored ==> length >= size
      decreases |s| - next
    {
      next := next + 1;
      length := length + 1;
    }
    r := if length >= size then None else Some((buffer, next));
  }

  method ParseString(s: CString, cursor: nat, size: nat) returns (r: Option<(string, nat)>)
    requires cursor <= |s| && size > 0
    ensures r == StringAt(s, cursor, size)
  {
    var start := SkipSpaces(s, cursor);
    if At(s, start) != '\'' {
      return None;
    }
    start := start + 1;
    var next, length, buffer := start, 0, "";
    while At(s, next) != '\0' && At(s, next) != '\''
      invariant start <= next <= |s| && length == next - start && length < size
      invariant buffer == s[start..next] && QuoteEnd(s, next) == QuoteEnd(s, start)
      decreases |s| - next
    {
      if length + 1 >= size {
        return None;
      }
      assert s[start..next + 1] == s[start..next] + [s[next]];
      buffer := buffer + [s[next]];
      length := length + 1;
      next := next + 1;
    }
    r := if At(s, next) != '\'' then None else Some((buffer, next + 1));
  }

  method ParseInt(s: CString, cursor: nat) returns (r: Option<(int, nat)>)
    requires cursor <= |s|
    ensures r == IntAt(s, cursor)
  {
    var start := SkipSpaces(s, cursor);
    if !(IsDigit(At(s, start)) || At(s, start) == '-') {
      return None;
    }
    var negative := At(s, start) == '-';
    var first := if negative then start + 1 else start;
    var parsed: int, next := ReadDigits(s, first);
    r := if next == first then None else Some((ToInt(if negative then -parsed else parsed), next));
  }

  /** The digit loop of strtol. */
  method ReadDigits(s: CString, first: nat) returns (parsed: nat, next: nat)
    requires first <= |s|
    ensures next == DigitsEnd(s, first) && parsed == Digits(s, first, next)
  {
    next, parsed := first, 0;
    while IsDigit(At(s, next))
      invariant first <= next <= |s| && DigitsEnd(s, next) == DigitsEnd(s, first)
      invariant forall k :: first <= k < next ==> IsDigit(s[k])
      invariant parsed == Digits(s, first, next)
      decreases |s| - next
    {
      parsed := 10 * parsed + DigitValue(s[next]);
      next := next + 1;
    }
  }
}
