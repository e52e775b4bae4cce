/** The part of `JSON.stringify` and `JSON.parse` that the auth slice's saved state goes through:
    string literals with their escapes, `null`, the two booleans and fixed punctuation. */
module FrontendJson {
  import opened Common

  const BACKSPACE: char := '\U{8}'
  const FORM_FEED: char := '\U{C}'

  /** The lowercase hexadecimal digit of `n`. */
  function HexDigit(n: nat): (c: char)
    requires n < 16
    ensures HexValue(c) == Some(n)
  {
    if n < 10 then (48 + n) as char else (87 + n) as char
  }

  /** The value of a hexadecimal digit of either case. */
  function HexValue(c: char): (r: Option<nat>)
    ensures r.Some? ==> r.value < 16
  {
    if '0' <= c <= '9' then Some(c as int - 48)
    else if 'a' <= c <= 'f' then Some(c as int - 87)
    else if 'A' <= c <= 'F' then Some(c as int - 55)
    else None
  }

  /** The value of four hexadecimal digits. */
  function Hex4(s: string): (r: Option<nat>)
    requires |s| == 4
    ensures r.Some? ==> r.value < 0x10000
  {
    match (HexValue(s[0]), HexValue(s[1]), HexValue(s[2]), HexValue(s[3]))
    case (Some(a), Some(b), Some(c), Some(d)) => Some(((a * 16 + b) * 16 + c) * 16 + d)
    case _ => None
  }

  /** How `JSON.stringify` writes one character inside a string literal: the quote, the backslash
      and the control characters are escaped, with the short forms where JSON has one. */
  function EscapeChar(c: char): (r: string)
    ensures |r| >= 1
    ensures r[0] != '"' && r[0] >= ' '
    ensures c != '"' && c != '\\' && c >= ' ' ==> r == [c]
  {
    if c == '"' then "\\\""
    else if c == '\\' then "\\\\"
    else if c == BACKSPACE then "\\b"
    else if c == FORM_FEED then "\\f"
    else if c == '\n' then "\\n"
    else if c == '\r' then "\\r"
    else if c == '\t' then "\\t"
    else if c < ' ' then "\\u00" + [HexDigit(c as int / 16), HexDigit(c as int % 16)]
    else [c]
  }

  function Escape(s: string): string {
    if s == [] then [] else EscapeChar(s[0]) + Escape(s[1..])
  }

  /** A string literal as `JSON.stringify` writes it. */
  function Quote(s: string): string {
    "\"" + Escape(s) + "\""
  }

  /** The character a one-letter escape `\x` stands for. */
  function ShortEscape(x: char): Option<char> {
    if x == '"' then Some('"')
    else if x == '\\' then Some('\\')
    else if x == '/' then Some('/')
    else if x == 'b' then Some(BACKSPACE)
    else if x == 'f' then Some(FORM_FEED)
    else if x == 'n' then Some('\n')
    else if x == 'r' then Some('\r')
    else if x == 't' then Some('\t')
    else None
  }

  function Prepend(c: char, r: Option<(string, string)>): (p: Option<(string, string)>)
    ensures p.Some? <==> r.Some?
    ensures p.Some? ==> p.value == ([c] + r.value.0, r.value.1)
  {
    match r
    case None => None
    case Some((v, rest)) => Some(([c] + v, rest))
  }

  /** `JSON.parse` reading a string literal after its opening quote: the decoded text and what
      follows the closing quote.  An unescaped control character, an unknown escape and a missing
      closing quote are syntax errors; a `\u` escape of a surrogate half is refused as well. */
  function ParseStringBody(s: string): (r: Option<(string, string)>)
    ensures r.Some? ==> |r.value.1| < |s|
    decreases |s|
  {
    if |s| == 0 then None
    else if s[0] == '"' then Some(([], s[1..]))
    else if s[0] < ' ' then None
    else if s[0] != '\\' then Prepend(s[0], ParseStringBody(s[1..]))
    else if |s| < 2 then None
    else if s[1] == 'u' then
      if |s| < 6 then None
      else match Hex4(s[2..6])
        case None => None
        case Some(v) =>
          if 0xD800 <= v < 0xE000 then None
          else Prepend(v as char, ParseStringBody(s[6..]))
    else match ShortEscape(s[1])
      case None => None
      case Some(c) => Prepend(c, ParseStringBody(s[2..]))
  }

  /** Each escaped character reads back as itself, and reading continues after it. */
  lemma EscapeCharReadsBack(c: char, rest: string)
    ensures ParseStringBody(EscapeChar(c) + rest) == Prepend(c, ParseStringBody(rest))
  {
    var e := EscapeChar(c);
    var s := e + rest;
    if c == '"' || c == '\\' || c == BACKSPACE || c == FORM_FEED || c == '\n' || c == '\r' || c == '\t' {
      assert s[0] == '\\' && s[1] == e[1] && s[2..] == rest;
    } else if c < ' ' {
      var hi := c as int / 16;
      var lo := c as int % 16;
      assert s[0] == '\\' && s[1] == 'u' && s[6..] == rest;
      assert s[2..6] == ['0', '0', HexDigit(hi), HexDigit(lo)];
      assert Hex4(s[2..6]) == Some(c as int);
    } else {
      assert s[0] == c && s[1..] == rest;
    }
  }

  /** The string literal `JSON.stringify` writes reads back as the same text, and reading stops
      right after its closing quote. */
  lemma {:induction false} EscapeReadsBack(t: string, rest: string)
    ensures ParseStringBody(Escape(t) + "\"" + rest) == Some((t, rest))
    decreases |t|
  {
    if t == [] {
      assert Escape(t) + "\"" + rest == "\"" + rest;
      assert ("\"" + rest)[1..] == rest;
    } else {
      assert Escape(t) + "\"" + rest == EscapeChar(t[0]) + (Escape(t[1..]) + "\"" + rest);
      EscapeCharReadsBack(t[0], Escape(t[1..]) + "\"" + rest);
      EscapeReadsBack(t[1..], rest);
      assert [t[0]] + t[1..] == t;
    }
  }

  /** The text after a literal prefix, when the input starts with it. */
  function Expect(lit: string, s: string): (r: Option<string>)
    ensures r.Some? <==> StartsWith(s, lit)
    ensures r.Some? ==> s == lit + r.value
  {
    if StartsWith(s, lit) then
      assert s == s[..|lit|] + s[|lit|..];
      Some(s[|lit|..])
    else None
  }

  lemma ExpectPrefix(lit: string, rest: string)
    ensures Expect(lit, lit + rest) == Some(rest)
  {
    assert (lit + rest)[..|lit|] == lit;
    assert (lit + rest)[|lit|..] == rest;
  }

  /** A JSON string or `null`. */
  function NullableString(v: Option<string>): string {
    match v
    case None => "null"
    case Some(s) => Quote(s)
  }

  function ParseNullableString(s: string): (r: Option<(Option<string>, string)>)
    ensures r.Some? ==> |r.value.1| < |s|
  {
    match Expect("null", s)
    case Some(rest) => Some((None, rest))
    case None =>
      if |s| > 0 && s[0] == '"' then
        match ParseStringBody(s[1..])
        case None => None
        case Some((v, rest)) => Some((Some(v), rest))
      else None
  }

  /** A nullable string reads back as itself, whatever follows it. */
  lemma NullableStringReadsBack(v: Option<string>, rest: string)
    ensures ParseNullableString(NullableString(v) + rest) == Some((v, rest))
  {
    match v
    case None =>
      ExpectPrefix("null", rest);
    case Some(t) =>
      var s := NullableString(v) + rest;
      assert s == "\"" + (Escape(t) + "\"" + rest);
      assert s[0] == '"' && s[1..] == Escape(t) + "\"" + rest;
      EscapeReadsBack(t, rest);
  }

  function BoolLiteral(b: bool): string {
    if b then "true" else "false"
  }

  function ParseBool(s: string): (r: Option<(bool, string)>)
    ensures r.Some? ==> |r.value.1| < |s|
  {
    match Expect("true", s)
    case Some(rest) => Some((true, rest))
    case None =>
      match Expect("false", s)
      case Some(rest) => Some((false, rest))
      case None => None
  }

  lemma BoolReadsBack(b: bool, rest: string)
    ensures ParseBool(BoolLiteral(b) + rest) == Some((b, rest))
  {
    if b {
      ExpectPrefix("true", rest);
    } else {
      assert !StartsWith("false" + rest, "true") by {
        assert ("false" + rest)[0] == 'f';
      }
      ExpectPrefix("false", rest);
    }
  }
}
