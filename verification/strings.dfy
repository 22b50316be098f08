/**
 * Escaping text for Java source (StringUtils). The input is a Java string, a
 * sequence of UTF-16 code units; the output is the escaped text.
 */
module StringUtils {
  import opened Wrappers

  type CodeUnit = n: int | 0 <= n < 0x10000

  /** isPrintableAscii: ' ' through '~'. */
  predicate IsPrintableAscii(ch: CodeUnit)
  {
    0x20 <= ch <= 0x7E
  }

  function HexDigit(d: int): char
    requires 0 <= d < 16
  {
    if d < 10 then ('0' as int + d) as char else ('a' as int + d - 10) as char
  }

  /** The four lower-case hexadecimal digits of `%04x`. */
  function Hex4(ch: CodeUnit): string
  {
    [HexDigit(ch / 4096), HexDigit(ch / 256 % 16), HexDigit(ch / 16 % 16), HexDigit(ch % 16)]
  }

  /**
   * quote(char): the Java escape sequence for backspace, form feed, newline,
   * carriage return, tab, single quote, double quote and backslash; the
   * character itself when it is printable ASCII; a `\uXXXX` escape otherwise.
   */
  function QuoteChar(ch: CodeUnit): string
  {
    if ch == 8 then "\\b"
    else if ch == 12 then "\\f"
    else if ch == 10 then "\\n"
    else if ch == 13 then "\\r"
    else if ch == 9 then "\\t"
    else if ch == 39 then "\\'"
    else if ch == 34 then "\\\""
    else if ch == 92 then "\\\\"
    else if IsPrintableAscii(ch) then [ch as char]
    else "\\u" + Hex4(ch)
  }

  /** quote(String): the escapes of the characters, in order. */
  function QuoteAll(s: seq<CodeUnit>): string
  {
    if s == [] then [] else QuoteChar(s[0]) + QuoteAll(s[1..])
  }

  lemma {:induction false} QuoteAllAppend(s: seq<CodeUnit>, t: seq<CodeUnit>)
    ensures QuoteAll(s + t) == QuoteAll(s) + QuoteAll(t)
  {
    if s == [] {
      assert s + t == t;
    } else {
      var st := s + t;
      assert st[0] == s[0];
      assert st[1..] == s[1..] + t;
      QuoteAllAppend(s[1..], t);
      calc {
        QuoteAll(st);
        QuoteChar(s[0]) + QuoteAll(s[1..] + t);
        QuoteChar(s[0]) + (QuoteAll(s[1..]) + QuoteAll(t));
        (QuoteChar(s[0]) + QuoteAll(s[1..])) + QuoteAll(t);
      }
    }
  }

  /** quote(String), appending the escape of each character to a buffer. */
  method Quote(s: seq<CodeUnit>) returns (r: string)
    ensures r == QuoteAll(s)
  {
    var buf: string := [];
    var i := 0;
    while i < |s|
      invariant 0 <= i <= |s|
      invariant buf == QuoteAll(s[..i])
    {
      QuoteAllAppend(s[..i], [s[i]]);
      assert s[..i + 1] == s[..i] + [s[i]];
      buf := buf + QuoteChar(s[i]);
      i := i + 1;
    }
    assert s[..i] == s;
    return buf;
  }

  // ---- what the escaped text looks like ----

  predicate PrintableText(t: string)
  {
    forall i :: 0 <= i < |t| ==> 0x20 <= t[i] as int <= 0x7E
  }

  /** Each escape is one, two or six characters long and contains printable ASCII only. */
  lemma QuoteCharShape(ch: CodeUnit)
    ensures |QuoteChar(ch)| in {1, 2, 6}
    ensures PrintableText(QuoteChar(ch))
    ensures |QuoteChar(ch)| == 1 <==> IsPrintableAscii(ch) && ch != 39 && ch != 34 && ch != 92
  {
  }

  /** Every character that is not ASCII is escaped as `\uXXXX`. */
  lemma QuoteEscapesNonAscii(ch: CodeUnit)
    requires ch >= 0x80
    ensures QuoteChar(ch) == "\\u" + Hex4(ch)
  {
  }

  /** The escaped text of any string contains printable ASCII only. */
  lemma {:induction false} QuoteAllPrintable(s: seq<CodeUnit>)
    ensures PrintableText(QuoteAll(s))
  {
    if s != [] {
      QuoteCharShape(s[0]);
      QuoteAllPrintable(s[1..]);
    }
  }

  // ---- the inverse: reading a Java string literal body back ----

  function HexValue(c: char): Option<int>
  {
    if '0' <= c <= '9' then Some(c as int - '0' as int)
    else if 'a' <= c <= 'f' then Some(c as int - 'a' as int + 10)
    else if 'A' <= c <= 'F' then Some(c as int - 'A' as int + 10)
    else None
  }

  function ParseHex4(t: string): Option<CodeUnit>
    requires |t| == 4
  {
    match (HexValue(t[0]), HexValue(t[1]), HexValue(t[2]), HexValue(t[3]))
    case (Some(a), Some(b), Some(c), Some(d)) =>
      if 0 <= a < 16 && 0 <= b < 16 && 0 <= c < 16 && 0 <= d < 16
      then Some(((a * 16 + b) * 16 + c) * 16 + d) else None
    case _ => None
  }

  function EscapedChar(c: char): Option<CodeUnit>
  {
    if c == 'b' then Some(8)
    else if c == 'f' then Some(12)
    else if c == 'n' then Some(10)
    else if c == 'r' then Some(13)
    else if c == 't' then Some(9)
    else if c == '\'' then Some(39)
    else if c == '"' then Some(34)
    else if c == '\\' then Some(92)
    else None
  }

  /** The characters a Java compiler reads from escaped text; None when the text is malformed. */
  function Unquote(t: string): Option<seq<CodeUnit>>
  {
    if t == [] then Some([])
    else if t[0] == '\\' then
      if |t| >= 2 && EscapedChar(t[1]).Some? then
        match Unquote(t[2..])
        case Some(rest) => Some([EscapedChar(t[1]).value] + rest)
        case None => None
      else if |t| >= 6 && t[1] == 'u' && ParseHex4(t[2..6]).Some? then
        match Unquote(t[6..])
        case Some(rest) => Some([ParseHex4(t[2..6]).value] + rest)
        case None => None
      else None
    else if 0x20 <= t[0] as int <= 0x7E then
      match Unquote(t[1..])
      case Some(rest) => Some([t[0] as int as CodeUnit] + rest)
      case None => None
    else None
  }

  /** Each hexadecimal digit reads back as its value. */
  lemma HexDigitValue(d: int)
    requires 0 <= d < 16
    ensures HexValue(HexDigit(d)) == Some(d)
  {
  }

  /** A code unit is the number its four hexadecimal digits spell. */
  lemma Hex4Digits(ch: CodeUnit)
    ensures ch == ((ch / 4096 * 16 + ch / 256 % 16) * 16 + ch / 16 % 16) * 16 + ch % 16
  {
    assert ch / 256 == ch / 4096 * 16 + ch / 256 % 16;
    assert ch / 16 == ch / 256 * 16 + ch / 16 % 16;
  }

  /** Reading back the four digits of `%04x` gives the code unit. */
  lemma Hex4RoundTrip(ch: CodeUnit)
    ensures ParseHex4(Hex4(ch)) == Some(ch)
  {
    var a, b, c, d := ch / 4096, ch / 256 % 16, ch / 16 % 16, ch % 16;
    Hex4Digits(ch);
    HexDigitValue(a);
    HexDigitValue(b);
    HexDigitValue(c);
    HexDigitValue(d);
    var h := Hex4(ch);
    assert HexValue(h[0]) == Some(a) && HexValue(h[1]) == Some(b);
    assert HexValue(h[2]) == Some(c) && HexValue(h[3]) == Some(d);
  }

  lemma UnquoteTwo(e: char, rest: string)
    requires EscapedChar(e).Some? && Unquote(rest).Some?
    ensures Unquote(['\\', e] + rest) == Some([EscapedChar(e).value] + Unquote(rest).value)
  {
    assert (['\\', e] + rest)[2..] == rest;
  }

  lemma UnquoteOne(c: char, rest: string)
    requires 0x20 <= c as int <= 0x7E && c != '\\' && Unquote(rest).Some?
    ensures Unquote([c] + rest) == Some([c as int as CodeUnit] + Unquote(rest).value)
  {
    assert ([c] + rest)[1..] == rest;
  }

  lemma UnquoteHex(ch: CodeUnit, rest: string)
    requires Unquote(rest).Some?
    ensures Unquote("\\u" + Hex4(ch) + rest) == Some([ch] + Unquote(rest).value)
  {
    var t := "\\u" + Hex4(ch) + rest;
    Hex4RoundTrip(ch);
    assert t[2..6] == Hex4(ch);
    assert t[6..] == rest;
    assert EscapedChar('u').None?;
  }

  lemma UnquoteStep(ch: CodeUnit, rest: string)
    requires Unquote(rest).Some?
    ensures Unquote(QuoteChar(ch) + rest) == Some([ch] + Unquote(rest).value)
  {
    if ch == 8 { UnquoteTwo('b', rest); }
    else if ch == 12 { UnquoteTwo('f', rest); }
    else if ch == 10 { UnquoteTwo('n', rest); }
    else if ch == 13 { UnquoteTwo('r', rest); }
    else if ch == 9 { UnquoteTwo('t', rest); }
    else if ch == 39 { UnquoteTwo('\'', rest); }
    else if ch == 34 { UnquoteTwo('"', rest); }
    else if ch == 92 { UnquoteTwo('\\', rest); }
    else if IsPrintableAscii(ch) { UnquoteOne(ch as char, rest); }
    else { UnquoteHex(ch, rest); }
  }

  /** Reading back the escaped text yields the original string. */
  lemma {:induction false} QuoteRoundTrip(s: seq<CodeUnit>)
    ensures Unquote(QuoteAll(s)) == Some(s)
  {
    if s != [] {
      QuoteRoundTrip(s[1..]);
      UnquoteStep(s[0], QuoteAll(s[1..]));
      assert [s[0]] + s[1..] == s;
    }
  }
}
