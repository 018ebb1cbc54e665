/** File names in header lines: the `a/`/`b/` prefixes git puts in front of
    them, and the C-style quoting git uses for names holding special bytes. */
module FileNames {
  import opened Results
  import opened Text

  /** The byte a one-letter backslash escape stands for inside a Go
      double-quoted string literal (`\a \b \f \n \r \t \v \\ \"`). */
  function LetterEscape(c: char): Option<char>
  {
    match c
    case 'a' => Some(7 as char)
    case 'b' => Some(8 as char)
    case 'f' => Some(12 as char)
    case 'n' => Some(10 as char)
    case 'r' => Some(13 as char)
    case 't' => Some(9 as char)
    case 'v' => Some(11 as char)
    case '\\' => Some('\\')
    case '"' => Some('"')
    case _ => None
  }

  predicate IsOctalDigit(c: char) {
    '0' <= c <= '7'
  }

  function OctalValue(a: char, b: char, c: char): nat
    requires IsOctalDigit(a) && IsOctalDigit(b) && IsOctalDigit(c)
  {
    (a as int - '0' as int) * 64 + (b as int - '0' as int) * 8 + (c as int - '0' as int)
  }

  /** The body of a double-quoted Go string literal, unescaped as
      `strconv.Unquote` does for the escapes git emits: a raw `"` or newline,
      a dangling backslash, an unknown escape or an octal escape above 255
      is a syntax error (`None`). */
  function Unescape(s: string): Option<string>
    decreases |s|
  {
    if |s| == 0 then Some([])
    else if s[0] == '"' || s[0] == '\n' then None
    else if s[0] != '\\' then Prepend(s[0], Unescape(s[1..]))
    else if |s| < 2 then None
    else if LetterEscape(s[1]).Some? then Prepend(LetterEscape(s[1]).value, Unescape(s[2..]))
    else if IsOctalDigit(s[1]) then
      if |s| >= 4 && IsOctalDigit(s[2]) && IsOctalDigit(s[3]) then
        var v := OctalValue(s[1], s[2], s[3]);
        if v > 255 then None else Prepend(v as char, Unescape(s[4..]))
      else None
    else None
  }

  function Prepend(c: char, r: Option<string>): Option<string> {
    match r
    case Some(t) => Some([c] + t)
    case None => None
  }

  /** `decodeOctalString`: the unescaped text, or `s` itself when it does not
      unescape. */
  function DecodeOctalString(s: string): (r: string)
    ensures Unescape(s).Some? ==> Some(r) == Unescape(s)
    ensures Unescape(s).None? ==> r == s
  {
    match Unescape(s)
    case Some(t) => t
    case None => s
  }

  /** `parseFileName`: strips one `a/` or `b/`; a quoted name loses its quotes
      and then one `a/` or `b/`, and is unescaped. */
  function ParseFileName(token: string): string
  {
    if HasPrefix(token, "a/") then TrimPrefix(token, "a/")
    else if HasPrefix(token, "b/") then TrimPrefix(token, "b/")
    else if HasPrefix(token, "\"") then
      var inner := TrimSuffix(TrimPrefix(token, "\""), "\"");
      if HasPrefix(inner, "a/") then DecodeOctalString(TrimPrefix(inner, "a/"))
      else if HasPrefix(inner, "b/") then DecodeOctalString(TrimPrefix(inner, "b/"))
      else DecodeOctalString(inner)
    else token
  }

  // ---- git's quoting, the inverse of Unescape ----

  /** A name is a byte string: every char is below 256. */
  predicate IsBytes(s: string) {
    forall i | 0 <= i < |s| :: s[i] as int < 256
  }

  function OctalDigit(n: nat): char
    requires n < 8
  {
    (n + '0' as int) as char
  }

  /** How git writes one byte of a quoted name: `"` and `\` and the control
      characters with a letter escape get it; other control bytes, DEL and
      bytes from 128 up become three octal digits. */
  function EscapeChar(c: char): string
    requires c as int < 256
  {
    var n := c as int;
    if c == '"' then "\\\""
    else if c == '\\' then "\\\\"
    else if n == 7 then "\\a"
    else if n == 8 then "\\b"
    else if n == 9 then "\\t"
    else if n == 10 then "\\n"
    else if n == 11 then "\\v"
    else if n == 12 then "\\f"
    else if n == 13 then "\\r"
    else if n < 32 || n >= 127 then ['\\', OctalDigit(n / 64), OctalDigit(n / 8 % 8), OctalDigit(n % 8)]
    else [c]
  }

  function Escape(s: string): string
    requires IsBytes(s)
  {
    if |s| == 0 then [] else EscapeChar(s[0]) + Escape(s[1..])
  }

  /** Unescaping one escaped byte in front of any text yields the byte in
      front of the unescaped text. */
  lemma UnescapeEscapeChar(c: char, rest: string)
    requires c as int < 256
    ensures Unescape(EscapeChar(c) + rest) == Prepend(c, Unescape(rest))
  {
    var e := EscapeChar(c);
    if |e| == 1 {
      assert (e + rest)[1..] == rest;
    } else if |e| == 2 {
      UnescapeLetterEscape(c, rest);
    } else {
      UnescapeOctalEscape(c, rest);
    }
  }

  lemma UnescapeLetterEscape(c: char, rest: string)
    requires c as int < 256 && |EscapeChar(c)| == 2
    ensures Unescape(EscapeChar(c) + rest) == Prepend(c, Unescape(rest))
  {
    assert (EscapeChar(c) + rest)[2..] == rest;
  }

  lemma UnescapeOctalEscape(c: char, rest: string)
    requires c as int < 256 && |EscapeChar(c)| == 4
    ensures Unescape(EscapeChar(c) + rest) == Prepend(c, Unescape(rest))
  {
    var s := EscapeChar(c) + rest;
    assert s[4..] == rest;
    assert OctalValue(s[1], s[2], s[3]) == c as int;
  }

  /** Quoting then unquoting a byte string gives it back. */
  lemma {:induction false} UnescapeEscape(s: string)
    requires IsBytes(s)
    ensures Unescape(Escape(s)) == Some(s)
    decreases |s|
  {
    if |s| > 0 {
      UnescapeEscape(s[1..]);
      assert Escape(s) == EscapeChar(s[0]) + Escape(s[1..]);
      UnescapeEscapeChar(s[0], Escape(s[1..]));
      assert s == [s[0]] + s[1..];
    }
  }

  /** An unquoted `a/` or `b/` name is stripped of its prefix and nothing else. */
  lemma ParseFileNamePrefixed(name: string)
    ensures ParseFileName("a/" + name) == name
    ensures ParseFileName("b/" + name) == name
  {
    assert ("a/" + name)[..2] == "a/";
    assert ("b/" + name)[..2] == "b/";
  }

  /** A token with no prefix and no opening quote is returned unchanged. */
  lemma ParseFileNameVerbatim(token: string)
    requires !HasPrefix(token, "a/") && !HasPrefix(token, "b/") && !HasPrefix(token, "\"")
    ensures ParseFileName(token) == token
  {
  }

  /** A quoted `a/` or `b/` token is decoded after its quotes and prefix
      are removed. */
  lemma ParseFileNameQuoted(prefix: string, body: string)
    requires prefix == "a/" || prefix == "b/"
    ensures ParseFileName("\"" + prefix + body + "\"") == DecodeOctalString(body)
  {
    var token := "\"" + prefix + body + "\"";
    var inner := prefix + body;
    assert token[0] == '"';
    assert !HasPrefix(token, "a/") && !HasPrefix(token, "b/");
    assert token[..1] == "\"";
    assert TrimPrefix(token, "\"") == inner + "\"";
    assert (inner + "\"")[|inner|..] == "\"";
    assert TrimSuffix(inner + "\"", "\"") == inner;
    assert inner[..2] == prefix;
    assert TrimPrefix(inner, prefix) == body;
  }

  /** A name git has quoted as `"a/…"` or `"b/…"` is recovered exactly. */
  lemma QuotedRoundTrip(prefix: string, name: string)
    requires prefix == "a/" || prefix == "b/"
    requires IsBytes(name)
    ensures ParseFileName("\"" + prefix + Escape(name) + "\"") == name
  {
    ParseFileNameQuoted(prefix, Escape(name));
    UnescapeEscape(name);
  }

  /** A quoted name that does not unescape comes back with its quotes and
      prefix removed but otherwise untouched: decoding never aborts. */
  lemma QuotedFallback(prefix: string, body: string)
    requires prefix == "a/" || prefix == "b/"
    requires Unescape(body).None?
    ensures ParseFileName("\"" + prefix + body + "\"") == body
  {
    ParseFileNameQuoted(prefix, body);
  }
}
