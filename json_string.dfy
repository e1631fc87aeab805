/**
 * `JSON.stringify` applied to a string: the string literal of section 7 of
 * RFC 8259, as ECMAScript's QuoteJSONString writes it, and a decoder for that
 * grammar to state what the literal means.
 */
module JsonString {
  import opened Wrappers

  /** A lower-case hexadecimal digit. */
  function HexDigit(d: nat): char
    requires d < 16
  {
    if d < 10 then ('0' as int + d) as char else ('a' as int + d - 10) as char
  }

  /** The value of a hexadecimal digit of either case, or -1. */
  function HexValue(c: char): int {
    if '0' <= c <= '9' then c as int - '0' as int
    else if 'a' <= c <= 'f' then c as int - 'a' as int + 10
    else if 'A' <= c <= 'F' then c as int - 'A' as int + 10
    else -1
  }

  /** The four hexadecimal digits of a `\uXXXX` escape, read as a code unit. */
  function Hex4Value(h: string): int
    requires |h| == 4
  {
    if HexValue(h[0]) < 0 || HexValue(h[1]) < 0 || HexValue(h[2]) < 0 || HexValue(h[3]) < 0 then -1
    else ((HexValue(h[0]) * 16 + HexValue(h[1])) * 16 + HexValue(h[2])) * 16 + HexValue(h[3])
  }

  /**
   * How one character is written inside the literal: the quote and the
   * backslash are escaped, the five control characters with short escapes use
   * them, the other control characters become `\u00XX`, and everything else is
   * copied.
   */
  function EscapeChar(c: char): string {
    if c == '"' then ['\\', '"']
    else if c == '\\' then ['\\', '\\']
    else if c as int == 0x08 then ['\\', 'b']
    else if c as int == 0x09 then ['\\', 't']
    else if c as int == 0x0A then ['\\', 'n']
    else if c as int == 0x0C then ['\\', 'f']
    else if c as int == 0x0D then ['\\', 'r']
    else if c as int < 0x20 then ['\\', 'u', '0', '0', HexDigit(c as int / 16), HexDigit(c as int % 16)]
    else [c]
  }

  function Escape(s: string): string {
    if s == [] then "" else EscapeChar(s[0]) + Escape(s[1..])
  }

  /** `JSON.stringify(s)` for a string `s`. */
  function Quote(s: string): string {
    ['"'] + Escape(s) + ['"']
  }

  function Prepend(c: char, rest: Option<string>): Option<string> {
    match rest
    case None => None
    case Some(r) => Some([c] + r)
  }

  /**
   * The characters denoted by the inside of a string literal (RFC 8259,
   * section 7), or None when it is not well formed. A `\u` escape of a UTF-16
   * surrogate half is refused: a Dafny character is a Unicode scalar value.
   */
  function DecodeBody(t: string): Option<string>
    decreases |t|
  {
    if t == [] then Some("")
    else if t[0] == '\\' then
      if |t| < 2 then None
      else if t[1] == '"' || t[1] == '\\' || t[1] == '/' then Prepend(t[1], DecodeBody(t[2..]))
      else if t[1] == 'b' then Prepend(0x08 as char, DecodeBody(t[2..]))
      else if t[1] == 't' then Prepend(0x09 as char, DecodeBody(t[2..]))
      else if t[1] == 'n' then Prepend(0x0A as char, DecodeBody(t[2..]))
      else if t[1] == 'f' then Prepend(0x0C as char, DecodeBody(t[2..]))
      else if t[1] == 'r' then Prepend(0x0D as char, DecodeBody(t[2..]))
      else if t[1] == 'u' && |t| >= 6 && Hex4Value(t[2..6]) >= 0 then
        var code := Hex4Value(t[2..6]);
        if 0xD800 <= code < 0xE000 then None
        else Prepend(code as char, DecodeBody(t[6..]))
      else None
    else if t[0] == '"' || t[0] as int < 0x20 then None
    else Prepend(t[0], DecodeBody(t[1..]))
  }

  /** The string a JSON string literal denotes, or None when `lit` is not one. */
  function Unquote(lit: string): Option<string> {
    if |lit| >= 2 && lit[0] == '"' && lit[|lit| - 1] == '"' then DecodeBody(lit[1..|lit| - 1])
    else None
  }

  /** Decoding undoes the escape of one character, whatever follows it. */
  lemma DecodeEscapeChar(c: char, t: string)
    ensures DecodeBody(EscapeChar(c) + t) == Prepend(c, DecodeBody(t))
  {
    var u := EscapeChar(c) + t;
    if |EscapeChar(c)| == 2 {
      assert u[2..] == t;
    } else if |EscapeChar(c)| == 6 {
      var hi, lo := c as int / 16, c as int % 16;
      assert u[2..6] == ['0', '0', HexDigit(hi), HexDigit(lo)];
      assert HexValue(HexDigit(hi)) == hi && HexValue(HexDigit(lo)) == lo;
      assert Hex4Value(u[2..6]) == c as int;
      assert u[6..] == t;
    } else {
      assert u[1..] == t;
    }
  }

  /** Decoding the escaped characters gives back the string. */
  lemma {:induction false} EscapeRoundTrip(s: string)
    ensures DecodeBody(Escape(s)) == Some(s)
  {
    if s != [] {
      EscapeRoundTrip(s[1..]);
      DecodeEscapeChar(s[0], Escape(s[1..]));
      assert [s[0]] + s[1..] == s;
    }
  }

  /** The literal `JSON.stringify` writes denotes exactly the string it was given. */
  lemma QuoteRoundTrip(s: string)
    ensures Unquote(Quote(s)) == Some(s)
  {
    var lit := Quote(s);
    assert lit[1..|lit| - 1] == Escape(s);
    EscapeRoundTrip(s);
  }

  /** Escaping never shortens a string, so a literal is at least two characters longer. */
  lemma {:induction false} QuoteLength(s: string)
    ensures |Quote(s)| >= |s| + 2
  {
    EscapeLength(s);
  }

  lemma {:induction false} EscapeLength(s: string)
    ensures |Escape(s)| >= |s|
  {
    if s != [] {
      EscapeLength(s[1..]);
    }
  }
}
