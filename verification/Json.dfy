/**
 JSON strings as the server writes and reads them (section 7 of RFC 8259): the
 escaper, the parser, and how far one undoes the other.
 */
module Json {
  import opened SqlText

  // --------------------------------------------------------------- escaping

  function HexDigit(d: nat): char
    requires d < 16
  {
    "0123456789abcdef"[d]
  }

  predicate IsControl(c: char) {
    c < 0x20 as char
  }

  function EscapeChar(c: char): (r: string)
    ensures 1 <= |r| <= 6
  {
    if c == '"' || c == '\\' then ['\\', c]
    else if c == '\n' then "\\n"
    else if c == '\r' then "\\r"
    else if c == '\t' then "\\t"
    else if IsControl(c) then "\\u00" + [HexDigit(c as int / 16), HexDigit(c as int % 16)]
    else [c]
  }

  /** The concatenation of what f makes of each character. */
  function FlatMap(s: string, f: char -> string): (r: string) {
    if s == "" then "" else f(s[0]) + FlatMap(s[1..], f)
  }

  lemma {:induction false} FlatMapAppend(s: string, c: char, f: char -> string)
    ensures FlatMap(s + [c], f) == FlatMap(s, f) + f(c)
  {
    if s == "" {
      assert s + [c] == [c] && [c][1..] == "";
    } else {
      FlatMapAppend(s[1..], c, f);
      assert (s + [c])[1..] == s[1..] + [c];
    }
  }

  function Escaped(s: string): (r: string) {
    FlatMap(s, EscapeChar)
  }

  /** Escaping never shrinks a string and never needs more than six times its length. */
  lemma {:induction false} EscapedLength(s: string)
    ensures |s| <= |Escaped(s)| <= 6 * |s|
  {
    if s != "" {
      EscapedLength(s[1..]);
    }
  }

  /** Escapes into a buffer of six times the input length plus one; the buffer always suffices. */
  method EscapeAlloc(input: CString) returns (escaped: array<char>, out: nat)
    ensures fresh(escaped) && escaped.Length == 6 * |input| + 1
    ensures out <= 6 * |input| && escaped[..out] == Escaped(input) && escaped[out] == '\0'
  {
    escaped := new char[6 * |input| + 1];
    out := 0;
    for index := 0 to |input|
      invariant out <= 6 * index && escaped[..out] == Escaped(input[..index])
    {
      var piece := EscapeChar(input[index]);
      FlatMapAppend(input[..index], input[index], EscapeChar);
      assert input[..index + 1] == input[..index] + [input[index]];
      out := WritePiece(escaped, out, piece);
    }
    assert input[..|input|] == input;
    escaped[out] := '\0';
  }

  /** Writes a piece of text at a position that has room for it. */
  method WritePiece(buffer: array<char>, out: nat, piece: string) returns (next: nat)
    requires out + |piece| < buffer.Length
    modifies buffer
    ensures next == out + |piece|
    ensures buffer[..next] == old(buffer[..out]) + piece
  {
    for i := 0 to |piece|
      invariant buffer[..out + i] == old(buffer[..out]) + piece[..i]
    {
      buffer[out + i] := piece[i];
    }
    next := out + |piece|;
  }

  // ---------------------------------------------------------------- parsing

  /** What a backslash followed by c denotes to the server's parser. */
  function Unescape(c: char): Option<char> {
    if c == '"' || c == '\\' || c == '/' then Some(c)
    else if c == 'n' then Some('\n')
    else if c == 'r' then Some('\r')
    else if c == 't' then Some('\t')
    else None
  }

  /** The body of a string from position i on, with acc already in the buffer. */
  function ParseBody(t: string, i: nat, acc: string, size: nat): (r: Option<(string, nat)>)
    requires i <= |t|
    decreases |t| - i
  {
    if i == |t| then None
    else if t[i] == '"' then Some((acc, i + 1))
    else if t[i] == '\\' then
      if i + 1 == |t| || Unescape(t[i + 1]).None? || |acc| + 1 >= size then None
      else ParseBody(t, i + 2, acc + [Unescape(t[i + 1]).value], size)
    else if |acc| + 1 >= size then None
    else ParseBody(t, i + 1, acc + [t[i]], size)
  }

  function ParseString(t: string, i: nat, size: nat): (r: Option<(string, nat)>)
    requires i <= |t|
  {
    if i == |t| || t[i] != '"' then None else ParseBody(t, i + 1, "", size)
  }

  /** The parser's loop: a cursor over the text and a length into a buffer of the given size. */
  method ReadString(t: string, start: nat, size: nat) returns (r: Option<(string, nat)>)
    requires start <= |t| && size > 0
    ensures r == ParseString(t, start, size)
  {
    if start >= |t| || t[start] != '"' {
      return None;
    }
    var buffer := new char[size];
    var cursor, length := start + 1, 0;
    while cursor < |t|
      invariant start < cursor <= |t| && length < size
      invariant ParseBody(t, cursor, buffer[..length], size) == ParseString(t, start, size)
    {
      var current := t[cursor];
      if current == '"' {
        return Some((buffer[..length], cursor + 1));
      }
      if current == '\\' {
        cursor := cursor + 1;
        if cursor >= |t| {
          return None;
        }
        var unescaped := Unescape(t[cursor]);
        if unescaped.None? {
          return None;
        }
        current := unescaped.value;
      }
      if length + 1 >= size {
        return None;
      }
      ghost var before := buffer[..length];
      buffer[length] := current;
      length := length + 1;
      assert buffer[..length] == before + [current];
      cursor := cursor + 1;
    }
    return None;
  }

  // -------------------------------------------------------------- round trip

  /** Strings without control characters other than newline, carriage return and tab. */
  predicate Clean(s: string) {
    forall i :: 0 <= i < |s| ==> CleanChar(s[i])
  }

  predicate CleanChar(c: char) {
    !IsControl(c) || c == '\n' || c == '\r' || c == '\t'
  }

  /** What the parser makes of one piece f(c) in front of anything: the character c, or a refusal. */
  ghost predicate Reads(f: char -> string) {
    forall pre: string, c: char, rest: string, acc: string, size: nat
      {:trigger ParseBody(pre + f(c) + rest, |pre|, acc, size)} ::
      c != '\0' && |acc| < size ==>
        ParseBody(pre + f(c) + rest, |pre|, acc, size) ==
        if CleanChar(c) && |acc| + 1 < size then ParseBody(pre + f(c) + rest, |pre| + |f(c)|, acc + [c], size) else None
  }

  lemma EscapesRead()
    ensures Reads(EscapeChar)
  {
  }

  lemma {:induction false} ParseFlat(f: char -> string, pre: string, s: string, tail: string, acc: string, size: nat)
    requires Reads(f) && (forall i :: 0 <= i < |s| ==> s[i] != '\0') && |acc| < size
    ensures ParseBody(pre + FlatMap(s, f) + ("\"" + tail), |pre|, acc, size) ==
            if Clean(s) && |acc| + |s| < size then Some((acc + s, |pre| + |FlatMap(s, f)| + 1)) else None
    decreases |s|
  {
    if s == "" {
      assert (pre + FlatMap(s, f) + ("\"" + tail))[|pre|] == '"';
      assert acc + s == acc;
    } else {
      var c, s' := s[0], s[1..];
      var rest := FlatMap(s', f) + ("\"" + tail);
      assert pre + FlatMap(s, f) + ("\"" + tail) == pre + f(c) + rest;
      CleanCons(s);
      if CleanChar(c) && |acc| + 1 < size {
        ParseFlat(f, pre + f(c), s', tail, acc + [c], size);
        assert (pre + f(c)) + FlatMap(s', f) + ("\"" + tail) == pre + f(c) + rest;
        assert acc + [c] + s' == acc + s;
      }
    }
  }

  lemma CleanCons(s: string)
    requires s != ""
    ensures Clean(s) <==> CleanChar(s[0]) && Clean(s[1..])
  {
  }

  /**
   The round trip: reading back a quoted, escaped string yields the string exactly when it fits the
   buffer and has no control character besides newline, carriage return and tab; otherwise it is refused.
   */
  lemma RoundTrip(s: CString, tail: string, size: nat)
    requires size > 0
    ensures ParseString("\"" + Escaped(s) + "\"" + tail, 0, size) ==
            if Clean(s) && |s| < size then Some((s, |Escaped(s)| + 2)) else None
  {
    EscapesRead();
    ParseFlat(EscapeChar, "\"", s, tail, "", size);
    assert "\"" + Escaped(s) + "\"" + tail == "\"" + Escaped(s) + ("\"" + tail);
    assert "" + s == s;
  }

  /** Not every string comes back: the character with code 1 is written as an escape that the parser refuses. */
  lemma ControlCharacterIsRefused(tail: string, size: nat)
    requires size > 0
    ensures var s := [1 as char];
            Escaped(s) == "\\u0001" && ParseString("\"" + Escaped(s) + "\"" + tail, 0, size) == None
  {
    var s: CString := [1 as char];
    assert s[1..] == "" && Escaped(s) == EscapeChar(1 as char) + Escaped("");
    RoundTrip(s, tail, size);
    assert !CleanChar(s[0]);
  }

  // ------------------------------------------------- reading by the standard

  predicate IsHex(c: char) {
    '0' <= c <= '9' || 'a' <= c <= 'f' || 'A' <= c <= 'F'
  }

  function HexValue(c: char): nat
    requires IsHex(c)
  {
    if '0' <= c <= '9' then c as int - '0' as int
    else if 'a' <= c <= 'f' then c as int - 'a' as int + 10
    else c as int - 'A' as int + 10
  }

  /** What an escape letter denotes in RFC 8259. */
  function StandardEscape(c: char): Option<char> {
    match c
    case '"' => Some('"')
    case '\\' => Some('\\')
    case '/' => Some('/')
    case 'b' => Some(8 as char)
    case 'f' => Some(12 as char)
    case 'n' => Some(10 as char)
    case 'r' => Some(13 as char)
    case 't' => Some(9 as char)
    case _ => None
  }

  /** The code unit that four hexadecimal digits denote. */
  function CodeUnit(d: string): Option<nat>
    requires |d| == 4
  {
    if IsHex(d[0]) && IsHex(d[1]) && IsHex(d[2]) && IsHex(d[3])
    then Some(0x1000 * HexValue(d[0]) + 0x100 * HexValue(d[1]) + 0x10 * HexValue(d[2]) + HexValue(d[3]))
    else None
  }

  /**
   A JSON string read by RFC 8259 from just after its opening quote: the string and what follows its closing
   quote.  Surrogate pairs are not read.
   */
  function StandardRead(t: string): (r: Option<(string, string)>)
    ensures r.Some? ==> |r.value.1| < |t|
    decreases |t|
  {
    if t == "" || t[0] < 0x20 as char then None
    else if t[0] == '"' then Some(("", t[1..]))
    else if t[0] != '\\' then Prepend(t[0], StandardRead(t[1..]))
    else if |t| < 2 then None
    else if StandardEscape(t[1]).Some? then Prepend(StandardEscape(t[1]).value, StandardRead(t[2..]))
    else if t[1] == 'u' && |t| >= 6 && CodeUnit(t[2..6]).Some? && !(0xD800 <= CodeUnit(t[2..6]).value < 0xE000) then
      Prepend(CodeUnit(t[2..6]).value as char, StandardRead(t[6..]))
    else None
  }

  function Prepend(c: char, r: Option<(string, string)>): (p: Option<(string, string)>)
    ensures p.Some? ==> r.Some? && p.value.1 == r.value.1
  {
    if r.None? then None else Some(([c] + r.value.0, r.value.1))
  }

  lemma HexPair(n: nat)
    requires n < 32
    ensures IsHex(HexDigit(n / 16)) && IsHex(HexDigit(n % 16))
    ensures 16 * HexValue(HexDigit(n / 16)) + HexValue(HexDigit(n % 16)) == n
  {
    HexOne(n / 16);
    HexOne(n % 16);
  }

  lemma HexOne(d: nat)
    requires d < 16
    ensures IsHex(HexDigit(d)) && HexValue(HexDigit(d)) == d
  {
  }

  lemma StandardHex(high: char, low: char, rest: string)
    requires IsHex(high) && IsHex(low)
    ensures StandardRead("\\u00" + [high, low] + rest) ==
            Prepend((16 * HexValue(high) + HexValue(low)) as char, StandardRead(rest))
  {
    var t := "\\u00" + [high, low] + rest;
    assert t[0] == '\\' && t[1] == 'u' && t[2] == '0' && t[3] == '0' && t[4] == high && t[5] == low;
    assert t[2..6] == ['0', '0', high, low];
    assert t[6..] == rest;
  }

  lemma StandardOne(c: char, rest: string)
    ensures StandardRead(EscapeChar(c) + rest) == Prepend(c, StandardRead(rest))
  {
    if IsControl(c) && c != '\n' && c != '\r' && c != '\t' {
      HexPair(c as int);
      StandardHex(HexDigit(c as int / 16), HexDigit(c as int % 16), rest);
    } else {
      var e := EscapeChar(c);
      assert (e + rest)[|e|..] == rest;
      assert forall i :: 0 <= i < |e| ==> (e + rest)[i] == e[i];
    }
  }

  /** Every string, control characters included, is recovered by any reader that follows the standard. */
  lemma {:induction false} StandardReaderRecovers(s: string, rest: string)
    ensures StandardRead(Escaped(s) + ("\"" + rest)) == Some((s, rest))
  {
    var tail := "\"" + rest;
    if s == "" {
      assert Escaped(s) + tail == tail && tail[0] == '"' && tail[1..] == rest;
    } else {
      StandardReaderRecovers(s[1..], rest);
      StandardOne(s[0], Escaped(s[1..]) + tail);
      assert Escaped(s) + tail == EscapeChar(s[0]) + (Escaped(s[1..]) + tail);
      assert s == [s[0]] + s[1..];
    }
  }

  // --------------------------------------------- the server's parser and the standard

  /** Up to the closing quote every backslash is followed by one of the letters the server's parser knows. */
  predicate ShortEscapes(u: string)
    decreases |u|
  {
    if u == "" then false
    else if u[0] == '"' then true
    else if u[0] != '\\' then ShortEscapes(u[1..])
    else |u| > 1 && u[1] in {'"', '\\', '/', 'n', 'r', 't'} && ShortEscapes(u[2..])
  }

  /** No raw control character before the closing quote. */
  predicate NoRawControls(u: string)
    decreases |u|
  {
    if u == "" || u[0] == '"' then true
    else if u[0] != '\\' then u[0] >= 0x20 as char && NoRawControls(u[1..])
    else |u| > 1 && NoRawControls(u[2..])
  }

  /** The server's parser accepts only strings whose escapes it knows, and keeps what it has read. */
  lemma {:induction false} ParserAccepts(t: string, i: nat, acc: string, size: nat)
    requires i <= |t|
    ensures ParseBody(t, i, acc, size).Some? ==> ShortEscapes(t[i..])
    ensures ParseBody(t, i, acc, size).Some? ==> acc <= ParseBody(t, i, acc, size).value.0
    decreases |t| - i
  {
    if i < |t| && t[i] == '\\' && i + 1 < |t| && Unescape(t[i + 1]).Some? {
      ParserAccepts(t, i + 2, acc + [Unescape(t[i + 1]).value], size);
      assert t[i..][2..] == t[i + 2..];
    } else if i < |t| && t[i] != '"' {
      ParserAccepts(t, i + 1, acc + [t[i]], size);
      assert t[i..][1..] == t[i + 1..];
    }
  }

  /** On a string with short escapes and without raw control characters the server's parser reads what the
      standard reads. */
  lemma {:induction false} ParserAgrees(t: string, i: nat, acc: string, size: nat)
    requires i <= |t| && |acc| < size && ShortEscapes(t[i..]) && NoRawControls(t[i..])
    ensures StandardRead(t[i..]).Some?
    ensures var s := StandardRead(t[i..]).value;
            ParseBody(t, i, acc, size) == if |acc| + |s.0| < size then Some((acc + s.0, |t| - |s.1|)) else None
    decreases |t| - i
  {
    var u := t[i..];
    if u[0] == '"' {
      assert acc + "" == acc;
    } else if u[0] != '\\' {
      assert u[1..] == t[i + 1..];
      if |acc| + 1 < size {
        ParserAgrees(t, i + 1, acc + [t[i]], size);
        var rest := StandardRead(t[i + 1..]).value.0;
        assert acc + [t[i]] + rest == acc + ([t[i]] + rest);
      } else {
        ParserAgrees(t, i + 1, acc, size);
      }
    } else {
      assert u[2..] == t[i + 2..];
      if |acc| + 1 < size {
        var c := StandardEscape(u[1]).value;
        ParserAgrees(t, i + 2, acc + [c], size);
        var rest := StandardRead(t[i + 2..]).value.0;
        assert acc + [c] + rest == acc + ([c] + rest);
      } else {
        ParserAgrees(t, i + 2, acc, size);
      }
    }
  }
}
