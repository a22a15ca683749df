/** Quoted strings in the syntax of the HCL Native Syntax Specification: the
    printer used for string instance keys, and a reader for its output. */
module Quoting {
  import opened Options

  // ---------------------------------------------------------------- printer

  function HexDigit(n: int): char
    requires 0 <= n < 16
  {
    "0123456789abcdef"[n]
  }

  /** `n` in base sixteen, padded with zeros to `width` digits. */
  function Hex(n: nat, width: nat): (h: string)
    ensures |h| == width
  {
    if width == 0 then "" else Hex(n / 16, width - 1) + [HexDigit(n % 16)]
  }

  /** What the printer writes for the first character of `s`. Which characters
      are printable is the Unicode table's decision, passed in as `isPrint`. */
  function EscapeFirst(s: string, isPrint: char -> bool): string
    requires s != ""
  {
    var c := s[0];
    if c == '\n' then "\\n"
    else if c == '\r' then "\\r"
    else if c == '\t' then "\\t"
    else if c == '\"' then "\\\""
    else if c == '\\' then "\\\\"
    else if c == '$' || c == '%' then
      if |s| > 1 && s[1] == '{' then [c, c] else [c]
    else if isPrint(c) then [c]
    else if c as int < 65536 then "\\u" + Hex(c as int, 4)
    else "\\U" + Hex(c as int, 8)
  }

  /** The characters of `s` in escaped form, followed by the text `end`. */
  function Escape(s: string, isPrint: char -> bool, end: string): string {
    if s == "" then end else EscapeFirst(s, isPrint) + Escape(s[1..], isPrint, end)
  }

  function Quote(s: string, isPrint: char -> bool): string {
    "\"" + Escape(s, isPrint, "\"")
  }

  lemma Associative(a: string, b: string, c: string)
    ensures a + b + c == a + (b + c)
  {
  }

  method ToHCLQuotedString(s: string, isPrint: char -> bool) returns (r: string)
    ensures r == Quote(s, isPrint)
  {
    if |s| == 0 {
      return "\"\"";
    }
    var buf := "\"";
    for i := 0 to |s|
      invariant buf + Escape(s[i..], isPrint, "\"") == Quote(s, isPrint)
    {
      var r := s[i];
      ghost var before := buf;
      match r {
        case '\n' => buf := buf + "\\n";
        case '\r' => buf := buf + "\\r";
        case '\t' => buf := buf + "\\t";
        case '\"' => buf := buf + "\\\"";
        case '\\' => buf := buf + "\\\\";
        case _ =>
          if r == '$' || r == '%' {
            buf := buf + [r];
            var remain := s[i + 1..];
            if |remain| > 0 && remain[0] == '{' {
              buf := buf + [r];
            }
          } else if !isPrint(r) {
            var digits := if r as int < 65536 then "\\u" + Hex(r as int, 4) else "\\U" + Hex(r as int, 8);
            buf := buf + digits;
          } else {
            buf := buf + [r];
          }
      }
      assert s[i..][1..] == s[i + 1..];
      assert buf == before + EscapeFirst(s[i..], isPrint);
      Associative(before, EscapeFirst(s[i..], isPrint), Escape(s[i + 1..], isPrint, "\""));
    }
    buf := buf + "\"";
    return buf;
  }

  // ----------------------------------------------------------------- reader

  function HexValue(c: char): Option<nat> {
    if '0' <= c <= '9' then Some(c as int - '0' as int)
    else if 'a' <= c <= 'f' then Some(c as int - 'a' as int + 10)
    else if 'A' <= c <= 'F' then Some(c as int - 'A' as int + 10)
    else None
  }

  function ReadHex(h: string): Option<nat> {
    if h == "" then Some(0)
    else
      var high, low := ReadHex(h[..|h| - 1]), HexValue(h[|h| - 1]);
      if high.None? || low.None? then None else Some(high.value * 16 + low.value)
  }

  predicate CodePoint(n: int) {
    0 <= n < 0xD800 || 0xE000 <= n < 0x11_0000
  }

  /** One escape or literal at the start of `t`: its value and its length. A bare
      template introducer, a raw line break or a broken escape has none. */
  function ReadFirst(t: string): Option<(string, nat)>
    requires t != ""
  {
    if t[0] == '\\' then
      if |t| == 1 then None
      else match t[1]
        case 'n' => Some(("\n", 2))
        case 'r' => Some(("\r", 2))
        case 't' => Some(("\t", 2))
        case '\"' => Some(("\"", 2))
        case '\\' => Some(("\\", 2))
        case 'u' => ReadCodePoint(t, 4)
        case 'U' => ReadCodePoint(t, 8)
        case _ => None
    else if t[0] == '$' || t[0] == '%' then
      if |t| > 2 && t[1] == t[0] && t[2] == '{' then Some((t[1..3], 3))
      else if |t| > 1 && t[1] == '{' then None
      else Some((t[..1], 1))
    else if t[0] == '\n' || t[0] == '\r' then None
    else Some((t[..1], 1))
  }

  function ReadCodePoint(t: string, digits: nat): Option<(string, nat)> {
    if |t| < 2 + digits then None
    else
      var n := ReadHex(t[2..2 + digits]);
      if n.Some? && CodePoint(n.value) then Some(([n.value as char], 2 + digits)) else None
  }

  /** Reads up to the closing quote; the second part is the text after it. */
  function ReadBody(t: string): Option<(string, string)>
    decreases |t|
  {
    if t == "" then None
    else if t[0] == '\"' then Some(("", t[1..]))
    else
      var first := ReadFirst(t);
      if first.None? || !(0 < first.value.1 <= |t|) then None
      else
        var rest := ReadBody(t[first.value.1..]);
        if rest.None? then None else Some((first.value.0 + rest.value.0, rest.value.1))
  }

  function ReadQuoted(t: string): Option<(string, string)> {
    if t == "" || t[0] != '\"' then None else ReadBody(t[1..])
  }

  // ----------------------------------------------------------------- proofs

  function Pow16(width: nat): nat {
    if width == 0 then 1 else 16 * Pow16(width - 1)
  }

  lemma {:induction false} ReadHexOfHex(n: nat, width: nat)
    requires n < Pow16(width)
    ensures ReadHex(Hex(n, width)) == Some(n)
  {
    if width > 0 {
      var high, low := n / 16, n % 16;
      assert n == high * 16 + low && high < Pow16(width - 1);
      ReadHexOfHex(high, width - 1);
      HexDigitValue(low);
      assert (Hex(high, width - 1) + [HexDigit(low)])[..width - 1] == Hex(high, width - 1);
    }
  }

  lemma HexDigitValue(n: int)
    requires 0 <= n < 16
    ensures HexValue(HexDigit(n)) == Some(n)
  {
  }

  lemma ReadCodePointOfHex(c: char, digits: nat, intro: string, rest: string)
    requires |intro| == 2 && c as int < Pow16(digits)
    ensures ReadCodePoint(intro + Hex(c as int, digits) + rest, digits) == Some(([c], 2 + digits))
  {
    var t := intro + Hex(c as int, digits) + rest;
    assert t[2..2 + digits] == Hex(c as int, digits);
    ReadHexOfHex(c as int, digits);
  }

  /** `$` and `%` stand for themselves unless `{` follows. */
  lemma ReadLoneIntroducer(c: char, s: string, isPrint: char -> bool, end: string)
    requires c == '$' || c == '%'
    requires s == "" || s[0] != '{'
    requires end != "" && end[0] == '\"'
    ensures ReadFirst([c] + Escape(s, isPrint, end)) == Some(([c], 1))
  {
  }

  /** A printable character that needs no escape stands for itself. */
  lemma ReadPlain(c: char, tail: string)
    requires c !in "\n\r\t\"\\$%"
    ensures ReadFirst([c] + tail) == Some(([c], 1))
  {
  }

  lemma ReadBackslash(c: char, letter: char, tail: string)
    requires (c, letter) in {('\n', 'n'), ('\r', 'r'), ('\t', 't'), ('\"', '\"'), ('\\', '\\')}
    ensures ReadFirst(['\\', letter] + tail) == Some(([c], 2))
  {
  }

  lemma ReadHexEscape(c: char, letter: char, digits: nat, tail: string)
    requires (letter == 'u' && digits == 4) || (letter == 'U' && digits == 8)
    requires c as int < Pow16(digits)
    ensures ReadFirst(['\\', letter] + Hex(c as int, digits) + tail) == Some(([c], 2 + digits))
  {
    ReadCodePointOfHex(c, digits, ['\\', letter], tail);
  }

  lemma Pow16Values()
    ensures Pow16(4) == 65536 && Pow16(8) == 0x1_0000_0000
  {
  }

  lemma ReadFirstOfEscape(s: string, isPrint: char -> bool, end: string)
    requires s != "" && end != "" && end[0] == '\"'
    requires !((s[0] == '$' || s[0] == '%') && |s| > 1 && s[1] == '{')
    ensures var t := Escape(s, isPrint, end);
            t != "" && t[0] != '\"' && ReadFirst(t) == Some(([s[0]], |EscapeFirst(s, isPrint)|))
  {
    var c, tail := s[0], Escape(s[1..], isPrint, end);
    match c {
      case '\n' => ReadBackslash(c, 'n', tail);
      case '\r' => ReadBackslash(c, 'r', tail);
      case '\t' => ReadBackslash(c, 't', tail);
      case '\"' => ReadBackslash(c, '\"', tail);
      case '\\' => ReadBackslash(c, '\\', tail);
      case _ =>
        if c == '$' || c == '%' {
          ReadLoneIntroducer(c, s[1..], isPrint, end);
        } else if isPrint(c) {
          ReadPlain(c, tail);
        } else {
          Pow16Values();
          if c as int < 65536 {
            ReadHexEscape(c, 'u', 4, tail);
          } else {
            ReadHexEscape(c, 'U', 8, tail);
          }
        }
    }
  }

  /** An escaped introducer is read together with the `{` after it. */
  lemma EscapedIntroducer(s: string, isPrint: char -> bool, end: string)
    requires isPrint('{') && |s| > 1 && (s[0] == '$' || s[0] == '%') && s[1] == '{'
    ensures var t := Escape(s, isPrint, end);
            && t == [s[0], s[0], '{'] + Escape(s[2..], isPrint, end)
            && ReadFirst(t) == Some(([s[0], '{'], 3))
  {
  }

  /** Reading back what the printer wrote gives the string, and leaves whatever
      follows the closing quote. It needs only that `{` counts as printable. */
  lemma {:induction false} ReadBodyOfEscape(s: string, isPrint: char -> bool, rest: string)
    requires isPrint('{')
    ensures ReadBody(Escape(s, isPrint, "\"" + rest)) == Some((s, rest))
    decreases |s|
  {
    var end := "\"" + rest;
    var t := Escape(s, isPrint, end);
    if s == "" {
      assert t[1..] == rest;
    } else if (s[0] == '$' || s[0] == '%') && |s| > 1 && s[1] == '{' {
      EscapedIntroducer(s, isPrint, end);
      assert t[3..] == Escape(s[2..], isPrint, end);
      ReadBodyOfEscape(s[2..], isPrint, rest);
      assert s == [s[0], '{'] + s[2..];
    } else {
      ReadFirstOfEscape(s, isPrint, end);
      assert t[|EscapeFirst(s, isPrint)|..] == Escape(s[1..], isPrint, end);
      ReadBodyOfEscape(s[1..], isPrint, rest);
      assert s == [s[0]] + s[1..];
    }
  }

  lemma {:induction false} EscapeThenMore(s: string, isPrint: char -> bool, end: string, rest: string)
    ensures Escape(s, isPrint, end) + rest == Escape(s, isPrint, end + rest)
  {
    if s != "" {
      EscapeThenMore(s[1..], isPrint, end, rest);
      Associative(EscapeFirst(s, isPrint), Escape(s[1..], isPrint, end), rest);
    }
  }

  /** The quoting round trip, for every string and with any text after it. */
  lemma QuoteRoundTrip(s: string, isPrint: char -> bool, rest: string)
    requires isPrint('{')
    ensures ReadQuoted(Quote(s, isPrint) + rest) == Some((s, rest))
  {
    var body := Escape(s, isPrint, "\"");
    EscapeThenMore(s, isPrint, "\"", rest);
    ReadBodyOfEscape(s, isPrint, rest);
    Associative("\"", body, rest);
    assert ("\"" + (body + rest))[1..] == body + rest;
  }

  // ------------------------------------------------------------ canonical form

  /** The first character stands for itself between quotes. */
  predicate PlainFirst(s: string, isPrint: char -> bool)
    requires s != ""
  {
    if s[0] == '$' || s[0] == '%' then |s| == 1 || s[1] != '{'
    else s[0] !in "\n\r\t\"\\" && isPrint(s[0])
  }

  predicate Plain(s: string, isPrint: char -> bool) {
    forall i :: 0 <= i < |s| ==> PlainFirst(s[i..], isPrint)
  }

  lemma {:induction false} EscapeOfPlain(s: string, isPrint: char -> bool, end: string)
    requires Plain(s, isPrint)
    ensures Escape(s, isPrint, end) == s + end
  {
    if s == "" {
      assert s + end == end;
    } else {
      PlainStep(s, isPrint);
      EscapeOfPlain(s[1..], isPrint, end);
      EscapeFirstLength(s, isPrint);
      assert s == [s[0]] + s[1..];
      Associative([s[0]], s[1..], end);
    }
  }

  lemma {:induction false} EscapeIsLonger(s: string, isPrint: char -> bool, end: string)
    ensures |Escape(s, isPrint, end)| >= |s| + |end|
    ensures |Escape(s, isPrint, end)| == |s| + |end| ==> Plain(s, isPrint)
  {
    if s != "" {
      EscapeIsLonger(s[1..], isPrint, end);
      PlainStep(s, isPrint);
      EscapeFirstLength(s, isPrint);
    }
  }

  lemma EscapeFirstLength(s: string, isPrint: char -> bool)
    requires s != ""
    ensures |EscapeFirst(s, isPrint)| >= 1
    ensures |EscapeFirst(s, isPrint)| == 1 ==> PlainFirst(s, isPrint)
    ensures PlainFirst(s, isPrint) ==> EscapeFirst(s, isPrint) == [s[0]]
  {
  }

  lemma PlainStep(s: string, isPrint: char -> bool)
    requires s != ""
    ensures Plain(s, isPrint) <==> PlainFirst(s, isPrint) && Plain(s[1..], isPrint)
  {
    assert s[0..] == s;
    assert forall i :: 0 < i < |s| ==> s[i..] == s[1..][i - 1..];
    assert forall i :: 0 <= i < |s| - 1 ==> s[1..][i..] == s[i + 1..];
  }

  /** Nothing is escaped without need: a string is written as it is, between quotes,
      exactly if all its characters are printable and none has a meaning there. */
  lemma QuoteIsPlainIff(s: string, isPrint: char -> bool)
    ensures Quote(s, isPrint) == "\"" + s + "\"" <==> Plain(s, isPrint)
  {
    Associative("\"", s, "\"");
    if Plain(s, isPrint) {
      EscapeOfPlain(s, isPrint, "\"");
    }
    if Quote(s, isPrint) == "\"" + (s + "\"") {
      assert |Escape(s, isPrint, "\"")| == |s| + 1;
      EscapeIsLonger(s, isPrint, "\"");
    }
  }

  /** Texts that can be shown; a tab is not printable. */
  predicate Showable(t: string, isPrint: char -> bool) {
    !isPrint('\t') && forall i :: 0 <= i < |t| ==> isPrint(t[i])
  }

  /** No showable text that reads as the same string is shorter. A text that starts
      by escaping a brace is longer by five characters. */
  lemma {:induction false} EscapeIsShortest(s: string, t: string, rest: string, isPrint: char -> bool)
    requires isPrint('{') && Showable(t, isPrint) && ReadBody(t) == Some((s, rest))
    ensures |Escape(s, isPrint, "\"" + rest)| <= |t|
    ensures s != "" && s[0] == '{' && t[0] != '{' ==> |Escape(s, isPrint, "\"" + rest)| + 5 <= |t|
    decreases |t|
  {
    var end := "\"" + rest;
    if t[0] == '\"' {
      assert t == end;
    } else {
      var (u, n) := ReadFirst(t).value;
      var s' := ReadBody(t[n..]).value.0;
      EscapeIsShortest(s', t[n..], rest, isPrint);
      if |u| == 2 {
        IntroducerIsShortest(s', t, u, n, isPrint, end);
      } else {
        assert (u + s')[1..] == s';
        FirstIsShortest(t, u + s', u, n, isPrint);
        EscapeLength(u + s', isPrint, end);
      }
    }
  }

  lemma EscapeLength(s: string, isPrint: char -> bool, end: string)
    requires s != ""
    ensures |Escape(s, isPrint, end)| == |EscapeFirst(s, isPrint)| + |Escape(s[1..], isPrint, end)|
  {
  }

  lemma IntroducerIsShortest(s: string, t: string, u: string, n: nat, isPrint: char -> bool, end: string)
    requires t != "" && isPrint('{') && ReadFirst(t) == Some((u, n)) && |u| == 2
    ensures n == 3 && (u + s)[0] != '{' && |Escape(u + s, isPrint, end)| == 3 + |Escape(s, isPrint, end)|
  {
    assert (u + s)[1..] == [u[1]] + s && (u + s)[2..] == s && (u + s)[1..][1..] == s;
    EscapeLength(u + s, isPrint, end);
    EscapeLength((u + s)[1..], isPrint, end);
  }

  /** The brace after a lone introducer is what must have been escaped in `t`. */
  predicate IntroducesBrace(t: string, s: string) {
    |s| > 1 && s[1] == '{' && (|t| < 2 || t[1] != '{')
  }

  lemma FirstIsShortest(t: string, s: string, u: string, n: nat, isPrint: char -> bool)
    requires t != "" && t[0] != '\"' && s != "" && u == [s[0]] && isPrint('{')
    requires Showable(t, isPrint) && ReadFirst(t) == Some((u, n))
    ensures |EscapeFirst(s, isPrint)| <= n || (n == 1 && |EscapeFirst(s, isPrint)| == 2 && IntroducesBrace(t, s))
    ensures s[0] == '{' && t[0] != '{' ==> n >= 6 && |EscapeFirst(s, isPrint)| == 1
  {
    if |t| >= 6 && t[0] == '\\' && t[1] == 'u' {
      ReadHexBound(t[2..6]);
      Pow16Values();
    }
  }

  lemma {:induction false} ReadHexBound(h: string)
    ensures ReadHex(h).Some? ==> ReadHex(h).value < Pow16(|h|)
  {
    if h != "" {
      ReadHexBound(h[..|h| - 1]);
    }
  }

  /** The quoted text is the shortest there is without unprintable characters. */
  lemma QuoteIsShortest(s: string, t: string, isPrint: char -> bool)
    requires isPrint('{') && Showable(t, isPrint) && ReadQuoted(t) == Some((s, ""))
    ensures |Quote(s, isPrint)| <= |t|
  {
    EscapeIsShortest(s, t[1..], "", isPrint);
    assert "\"" + "" == "\"";
  }

  /** Escapes are written with small letters. */
  lemma {:induction false} HexIsLowerCase(n: nat, width: nat)
    ensures forall i :: 0 <= i < width ==> Hex(n, width)[i] in "0123456789abcdef"
  {
    if width > 0 {
      HexIsLowerCase(n / 16, width - 1);
    }
  }
}
