/** The two escapers of core/filter_engine.cc and decoders written from the standards: the
strings of section 7 of RFC 8259, byte by byte, and the string literals of section 9.1.1 of
the MySQL Reference Manual with backslash escapes on. */
module Escaping {
  import opened Bytes

  // ---- JSON ----

  function HexChar(n: nat): char
    requires n < 16
  {
    "0123456789abcdef"[n]
  }

  function JsonEscapeByte(c: char): string {
    if c == '"' then "\\\""
    else if c == '\\' then "\\\\"
    else if c as int == 8 then "\\b"
    else if c as int == 12 then "\\f"
    else if c == '\n' then "\\n"
    else if c == '\r' then "\\r"
    else if c == '\t' then "\\t"
    else if c as int < 0x20 then "\\u00" + [HexChar(c as nat / 16), HexChar(c as nat % 16)]
    else [c]
  }

  function JsonEscape(s: string): string { if s == [] then [] else JsonEscapeByte(s[0]) + JsonEscape(s[1..]) }

  method JsonEscapeAppend(out0: string, src: string) returns (out: string)
    ensures out == out0 + JsonEscape(src)
  {
    hide JsonEscapeByte;
    out := out0;
    assert src[0..] == src;
    for i := 0 to |src|
      invariant out + JsonEscape(src[i..]) == out0 + JsonEscape(src)
    {
      assert src[i..][1..] == src[i + 1..];
      var b := JsonEscapeByte(src[i]);
      ghost var rest := JsonEscape(src[i + 1..]);
      assert out + (b + rest) == out + b + rest;
      out := out + b;
    }
    assert src[|src|..] == [] && out + [] == out;
  }

  function HexValue(c: char): Option<nat> {
    if '0' <= c <= '9' then Some(c as nat - '0' as nat)
    else if 'a' <= c <= 'f' then Some(c as nat - 'a' as nat + 10)
    else if 'A' <= c <= 'F' then Some(c as nat - 'A' as nat + 10)
    else None
  }

  /** The code of `\uXXXX`, as far as it is a single byte. */
  function UnicodeByte(a: char, b: char, c: char, d: char): Option<char> {
    match (HexValue(a), HexValue(b), HexValue(c), HexValue(d))
    case (Some(w), Some(x), Some(y), Some(z)) =>
      var code := 4096 * w + 256 * x + 16 * y + z;
      if code < 0x80 then Some(code as char) else None
    case _ => None
  }

  /** One character of a JSON string and the bytes it takes; none at a quote, at a raw
      control byte or at an escape the standard does not have. */
  function JsonUnit(s: string): (r: Option<(char, nat)>)
    ensures r.Some? ==> 0 < r.value.1 <= |s|
  {
    if s == [] || s[0] == '"' || s[0] as int < 0x20 then None
    else if s[0] != '\\' then Some((s[0], 1))
    else if |s| < 2 then None
    else match s[1]
      case '"' => Some(('"', 2))
      case '\\' => Some(('\\', 2))
      case '/' => Some(('/', 2))
      case 'b' => Some((8 as char, 2))
      case 'f' => Some((12 as char, 2))
      case 'n' => Some(('\n', 2))
      case 'r' => Some(('\r', 2))
      case 't' => Some(('\t', 2))
      case 'u' =>
        if |s| < 6 then None else
          var code := UnicodeByte(s[2], s[3], s[4], s[5]);
          if code.None? then None else Some((code.value, 6))
      case _ => None
  }

  /** A JSON string after its opening quote: its characters and what follows the closing quote. */
  function JsonString(s: string): (r: Option<(string, string)>)
    ensures r.Some? ==> |r.value.1| < |s|
    decreases |s|
  {
    if HasQuote(s, '"') then Some(("", s[1..]))
    else
      var unit := JsonUnit(s);
      if unit.None? then None else
        var rest := JsonString(s[unit.value.1..]);
        if rest.None? then None else Some(([unit.value.0] + rest.value.0, rest.value.1))
  }

  predicate HasQuote(s: string, q: char) { s != [] && s[0] == q }

  lemma JsonUnitOfByte(c: char, t: string)
    ensures JsonUnit(JsonEscapeByte(c) + t) == Some((c, |JsonEscapeByte(c)|))
    ensures !HasQuote(JsonEscapeByte(c) + t, '"')
    ensures '\n' !in JsonEscapeByte(c)
  {
    var s := JsonEscapeByte(c) + t;
    if c as int < 0x20 && |JsonEscapeByte(c)| == 6 {
      HexDigits(c as nat);
      assert s[..6] == JsonEscapeByte(c);
    }
  }

  lemma HexDigits(n: nat)
    requires n < 0x20
    ensures UnicodeByte('0', '0', HexChar(n / 16), HexChar(n % 16)) == Some(n as char)
  {
  }

  /** Decoding undoes escaping: for all bytes, an escaped string read up to its closing
      quote gives back the string and leaves the text behind it. */
  lemma {:induction false} JsonRoundTrip(x: string, t: string)
    ensures JsonString(JsonEscape(x) + ("\"" + t)) == Some((x, t))
    ensures '\n' !in JsonEscape(x)
  {
    if x == [] {
      assert JsonEscape(x) + ("\"" + t) == "\"" + t;
      assert ("\"" + t)[1..] == t;
    } else {
      var b := JsonEscapeByte(x[0]);
      var u := JsonEscape(x[1..]) + ("\"" + t);
      assert JsonEscape(x) + ("\"" + t) == b + u;
      JsonUnitOfByte(x[0], u);
      assert (b + u)[|b|..] == u;
      JsonRoundTrip(x[1..], t);
      assert [x[0]] + x[1..] == x;
    }
  }

  /** Text without a quote, a backslash or a control byte needs no escaping. */
  predicate Plain(s: string) { forall c <- s :: c != '"' && c != '\\' && c as int >= 0x20 }

  lemma PlainByte(c: char)
    requires c != '"' && c != '\\' && c as int >= 0x20
    ensures JsonEscapeByte(c) == [c]
  {
  }

  lemma {:induction false} PlainIsItself(s: string)
    requires Plain(s)
    ensures JsonEscape(s) == s
  {
    hide JsonEscapeByte;
    if s != [] {
      assert s[0] in s && forall c <- s[1..] :: c in s;
      PlainByte(s[0]);
      PlainIsItself(s[1..]);
      assert [s[0]] + s[1..] == s;
    }
  }

  // ---- SQL ----

  function SqlEscapeByte(c: char): string {
    if c == '\'' then "\\'"
    else if c == '\\' then "\\\\"
    else if c as int == 0 then "\\0"
    else if c == '\n' then "\\n"
    else if c == '\r' then "\\r"
    else if c as int == 26 then "\\Z"
    else [c]
  }

  function SqlEscape(s: string): string { if s == [] then [] else SqlEscapeByte(s[0]) + SqlEscape(s[1..]) }

  method SqlEscapeAppend(out0: string, src: string) returns (out: string)
    ensures out == out0 + SqlEscape(src)
  {
    hide SqlEscapeByte;
    out := out0;
    assert src[0..] == src;
    for i := 0 to |src|
      invariant out + SqlEscape(src[i..]) == out0 + SqlEscape(src)
    {
      assert src[i..][1..] == src[i + 1..];
      var b := SqlEscapeByte(src[i]);
      ghost var rest := SqlEscape(src[i + 1..]);
      assert out + (b + rest) == out + b + rest;
      out := out + b;
    }
    assert src[|src|..] == [] && out + [] == out;
  }

  /** The bytes an escape sequence stands for; `\%` and `\_` stand for themselves. */
  function SqlUnescape(c: char): string {
    match c
    case '0' => [0 as char]
    case 'b' => [8 as char]
    case 'n' => "\n"
    case 'r' => "\r"
    case 't' => "\t"
    case 'Z' => [26 as char]
    case '%' => "\\%"
    case '_' => "\\_"
    case _ => [c]
  }

  /** A literal after its opening quote: its bytes and what follows the closing quote. A
      doubled quote is a quote. */
  function SqlString(s: string): (r: Option<(string, string)>)
    ensures r.Some? ==> |r.value.1| < |s|
    decreases |s|
  {
    if s == [] then None
    else if s[0] == '\'' then
      if |s| > 1 && s[1] == '\'' then SqlMore("'", SqlString(s[2..])) else Some(("", s[1..]))
    else if s[0] == '\\' then
      if |s| < 2 then None else SqlMore(SqlUnescape(s[1]), SqlString(s[2..]))
    else SqlMore([s[0]], SqlString(s[1..]))
  }

  function SqlMore(x: string, r: Option<(string, string)>): Option<(string, string)> {
    if r.None? then None else Some((x + r.value.0, r.value.1))
  }

  /** An escape sequence in front of `u`. */
  lemma EscapeReads(e: char, u: string)
    ensures SqlString(['\\', e] + u) == SqlMore(SqlUnescape(e), SqlString(u))
  {
    hide SqlUnescape, SqlMore;
    var s := ['\\', e] + u;
    assert s[2..] == u && s[1] == e;
  }

  lemma PlainReads(c: char, u: string)
    requires c != '\'' && c != '\\'
    ensures SqlString([c] + u) == SqlMore([c], SqlString(u))
  {
    hide SqlMore;
    assert ([c] + u)[1..] == u;
  }

  lemma SqlByteRoundTrip(c: char, u: string)
    ensures SqlString(SqlEscapeByte(c) + u) == SqlMore([c], SqlString(u))
  {
    hide SqlString, SqlMore;
    if c == '\'' || c == '\\' {
      EscapeReads(c, u);
    } else if c as int == 0 {
      EscapeReads('0', u);
    } else if c == '\n' {
      EscapeReads('n', u);
    } else if c == '\r' {
      EscapeReads('r', u);
    } else if c as int == 26 {
      EscapeReads('Z', u);
    } else {
      PlainReads(c, u);
    }
  }

  /** Decoding undoes escaping: for all bytes, an escaped string read up to its closing
      quote gives back the string, as long as no second quote follows. */
  lemma {:induction false} SqlRoundTrip(x: string, t: string)
    requires !HasQuote(t, '\'')
    ensures SqlString(SqlEscape(x) + ("'" + t)) == Some((x, t))
  {
    if x == [] {
      assert SqlEscape(x) + ("'" + t) == "'" + t;
      assert ("'" + t)[1..] == t;
    } else {
      var b := SqlEscapeByte(x[0]);
      var u := SqlEscape(x[1..]) + ("'" + t);
      assert SqlEscape(x) + ("'" + t) == b + u;
      SqlByteRoundTrip(x[0], u);
      SqlRoundTrip(x[1..], t);
      assert [x[0]] + x[1..] == x;
    }
  }

  /** Text that the SQL escaper leaves alone. */
  predicate SqlPlain(s: string) {
    forall c <- s :: c != '\'' && c != '\\' && c as int != 0 && c as int != 26 && c != '\n' && c != '\r'
  }

  lemma {:induction false} SqlPlainIsItself(s: string)
    requires SqlPlain(s)
    ensures SqlEscape(s) == s
  {
    if s != [] {
      assert s[0] in s && forall c <- s[1..] :: c in s;
      SqlPlainIsItself(s[1..]);
      assert [s[0]] + s[1..] == s;
    }
  }
}
