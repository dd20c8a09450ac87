/** The part of TOML v1.0.0 the configuration file uses: basic strings, and documents made of whole-line
    headers and one-line entries. */
module Toml {
  import opened Wrappers
  import opened FileNames

  // ----- the printer's quoting -----

  function ReplaceChar(s: string, c: char, with: string): string {
    if s == [] then [] else (if s[0] == c then with else [s[0]]) + ReplaceChar(s[1..], c, with)
  }

  /** Escapes backslashes first and quotes second, as two passes over the text. */
  function EscapeText(s: string): string {
    ReplaceChar(ReplaceChar(s, '\\', "\\\\"), '"', "\\\"")
  }

  function Quote(s: string): string {
    "\"" + EscapeText(s) + "\""
  }

  // ----- reading a basic string (section "String" of TOML v1.0.0) -----

  /** Characters a basic string must not contain unescaped: the ASCII controls except tab. */
  predicate Illegal(c: char) {
    IsControl(c) && c != '\t'
  }

  function HexValue(c: char): Option<nat> {
    if '0' <= c <= '9' then Some((c as int) - ('0' as int))
    else if 'a' <= c <= 'f' then Some((c as int) - ('a' as int) + 10)
    else if 'A' <= c <= 'F' then Some((c as int) - ('A' as int) + 10)
    else None
  }

  function Hex(s: string): Option<nat> {
    if s == [] then Some(0)
    else
      match (Hex(s[..|s| - 1]), HexValue(s[|s| - 1]))
      case (Some(high), Some(low)) => Some(16 * high + low)
      case _ => None
  }

  /** One escape sequence after its backslash: the character and how much text it took. */
  function ReadEscape(t: string): Option<(char, nat)> {
    if t == [] then None
    else
      match t[0]
      case 'b' => Some(('\U{8}', 1))
      case 't' => Some(('\t', 1))
      case 'n' => Some(('\n', 1))
      case 'f' => Some(('\U{c}', 1))
      case 'r' => Some(('\r', 1))
      case '"' => Some(('"', 1))
      case '\\' => Some(('\\', 1))
      case 'u' => ReadCodePoint(t[1..], 4)
      case 'U' => ReadCodePoint(t[1..], 8)
      case _ => None
  }

  function ReadCodePoint(t: string, digits: nat): Option<(char, nat)> {
    if |t| < digits then None
    else
      match Hex(t[..digits])
      case None => None
      case Some(n) => if n < 0xD800 || 0xE000 <= n < 0x110000 then Some((n as char, 1 + digits)) else None
  }

  /** The rest of a basic string up to its closing quote, and the text after it. */
  function ReadBody(t: string): Option<(string, string)>
    decreases |t|
  {
    if t == [] then None
    else if t[0] == '"' then Some(("", t[1..]))
    else if Illegal(t[0]) then None
    else
      var (c, width) := if t[0] == '\\'
                        then (match ReadEscape(t[1..]) case None => (' ', 0) case Some((e, n)) => (e, n + 1))
                        else (t[0], 1);
      if width == 0 || width > |t| then None
      else
        match ReadBody(t[width..])
        case None => None
        case Some((s, rest)) => Some(([c] + s, rest))
  }

  function ReadBasic(t: string): Option<(string, string)> {
    if t == [] || t[0] != '"' then None else ReadBody(t[1..])
  }

  /** The short escapes of a basic string (section "String" of TOML v1.0.0). */
  lemma EscapesRead(rest: string)
    ensures ReadEscape("b" + rest) == Some(('\U{8}', 1)) && ReadEscape("t" + rest) == Some(('\U{9}', 1))
    ensures ReadEscape("n" + rest) == Some(('\U{a}', 1)) && ReadEscape("f" + rest) == Some(('\U{c}', 1))
    ensures ReadEscape("r" + rest) == Some(('\U{d}', 1)) && ReadEscape("\"" + rest) == Some(('\U{22}', 1))
    ensures ReadEscape("\\" + rest) == Some(('\U{5c}', 1))
  {
  }

  /** The digits of a numeric escape: sixteen of them, in either case. */
  lemma HexDigits(c: char)
    ensures '0' <= c <= '9' ==> HexValue(c) == Some(c as int - 48)
    ensures 'a' <= c <= 'f' ==> HexValue(c) == Some(c as int - 87)
    ensures 'A' <= c <= 'F' ==> HexValue(c) == Some(c as int - 55)
    ensures HexValue(c).Some? <==> '0' <= c <= '9' || 'a' <= c <= 'f' || 'A' <= c <= 'F'
  {
  }

  lemma HexAppend(s: string, c: char)
    ensures Hex("") == Some(0)
    ensures Hex(s + [c]).Some? <==> Hex(s).Some? && HexValue(c).Some?
    ensures Hex(s + [c]).Some? ==> Hex(s + [c]).value == 16 * Hex(s).value + HexValue(c).value
  {
    hide HexValue;
    var t := s + [c];
    assert t[..|t| - 1] == s && t[|t| - 1] == c;
  }

  lemma CodePointHead(u: char, digits: string, rest: string)
    ensures var t := [u] + digits + rest;
            t[0] == u && t[1..] == digits + rest && t[1..][..|digits|] == digits
  {
    assert ([u] + digits + rest)[1..] == digits + rest;
  }

  /** A numeric escape has four or eight digits and stands for a Unicode scalar value. */
  lemma CodePointRead(digits: string, rest: string)
    requires Hex(digits).Some?
    ensures var n := Hex(digits).value;
            var c := if n < 0xD800 || 0xDFFF < n <= 0x10FFFF then Some(n as char) else None;
            && (|digits| == 4 ==>
                  ReadEscape("u" + digits + rest) == match c case None => None case Some(x) => Some((x, 5)))
            && (|digits| == 8 ==>
                  ReadEscape("U" + digits + rest) == match c case None => None case Some(x) => Some((x, 9)))
  {
    CodePointHead('u', digits, rest);
    CodePointHead('U', digits, rest);
    hide Hex;
  }

  lemma {:induction false} ReplaceAppend(a: string, b: string, c: char, with: string)
    ensures ReplaceChar(a + b, c, with) == ReplaceChar(a, c, with) + ReplaceChar(b, c, with)
  {
    if a == [] {
      assert a + b == b;
    } else {
      assert (a + b)[0] == a[0] && (a + b)[1..] == a[1..] + b;
      ReplaceAppend(a[1..], b, c, with);
    }
  }

  /** What the two passes make of one character. */
  function EscapeOf(c: char): string {
    if c == '\\' then "\\\\" else if c == '"' then "\\\"" else [c]
  }

  /** The two passes escape each character on its own. */
  lemma EscapeStep(s: string)
    requires s != []
    ensures EscapeText(s) == EscapeOf(s[0]) + EscapeText(s[1..])
  {
    var first := if s[0] == '\\' then "\\\\" else [s[0]];
    ReplaceAppend(first, ReplaceChar(s[1..], '\\', "\\\\"), '"', "\\\"");
    if s[0] == '\\' {
      assert "\\\\"[1..] == "\\" && "\\"[1..] == [];
      assert ReplaceChar("\\", '"', "\\\"") == "\\";
      assert ReplaceChar("\\\\", '"', "\\\"") == "\\\\";
    } else {
      assert [s[0]][1..] == [];
    }
  }

  predicate HasIllegal(s: string) {
    s != [] && (Illegal(s[0]) || HasIllegal(s[1..]))
  }

  lemma {:induction false} HasIllegalExact(s: string)
    ensures HasIllegal(s) <==> exists i :: 0 <= i < |s| && Illegal(s[i])
  {
    if s == [] {
    } else {
      HasIllegalExact(s[1..]);
      if i :| 0 <= i < |s| && Illegal(s[i]) { if i > 0 { assert s[1..][i - 1] == s[i]; } }
      if i :| 0 <= i < |s[1..]| && Illegal(s[1..][i]) { assert s[i + 1] == s[1..][i]; }
    }
  }

  lemma ReadsEnd(rest: string)
    ensures ReadBody("\"" + rest) == Some(("", rest))
  {
    assert ("\"" + rest)[1..] == rest;
  }

  /** A reader gives back exactly the quoted text and leaves what follows it, unless the text holds a
      control character, in which case it rejects the string. */
  lemma {:induction false} EscapeRoundTrip(s: string, rest: string)
    ensures ReadBody(EscapeText(s) + "\"" + rest) == if HasIllegal(s) then None else Some((s, rest))
  {
    hide ReadBody, Illegal;
    if s == [] {
      ReadsEnd(rest);
      assert EscapeText(s) + "\"" + rest == "\"" + rest;
    } else {
      EscapeStep(s);
      hide EscapeText, EscapeOf;
      EscapeRoundTrip(s[1..], rest);
      Apart(EscapeOf(s[0]), EscapeText(s[1..]), rest);
      ReadOne(s[0], EscapeText(s[1..]) + "\"" + rest);
      assert s == [s[0]] + s[1..];
    }
  }

  lemma Apart(a: string, b: string, rest: string)
    ensures a + b + "\"" + rest == a + (b + "\"" + rest)
  {
  }

  /** Reading one escaped character. */
  lemma ReadOne(c: char, tail: string)
    ensures ReadBody(EscapeOf(c) + tail)
            == if Illegal(c) then None
               else match ReadBody(tail)
                    case None => None
                    case Some((s, rest)) => Some(([c] + s, rest))
  {
    hide Hex, ReadCodePoint;
    var t := EscapeOf(c) + tail;
    assert t[|EscapeOf(c)|..] == tail;
    if c == '\\' || c == '"' {
      assert t[0] == '\\' && t[1..][0] == c;
    } else {
      assert t[0] == c;
    }
  }

  /** Quoting is undone by reading exactly for text without control characters other than tab; other
      text makes the reader reject the string. */
  lemma QuoteRoundTrip(s: string)
    ensures ReadBasic(Quote(s)) == Some((s, "")) <==> forall i :: 0 <= i < |s| ==> !Illegal(s[i])
    ensures ReadBasic(Quote(s)).Some? <==> forall i :: 0 <= i < |s| ==> !Illegal(s[i])
  {
    EscapeRoundTrip(s, "");
    HasIllegalExact(s);
    hide EscapeText, ReadBody;
    assert Quote(s)[1..] == EscapeText(s) + "\"" + "";
  }

  // ----- lines -----

  /** Where Python's splitlines ends a line. */
  predicate PythonBreak(c: char) {
    c == '\n' || c == '\r' || c == '\U{b}' || c == '\U{c}' || '\U{1c}' <= c <= '\U{1e}' || c == '\U{85}'
    || c == '\U{2028}' || c == '\U{2029}'
  }

  /** The breaks that TOML does not have: everything but a newline or a carriage return before one. */
  ghost predicate ForeignBreakAt(t: string, i: nat)
    requires i < |t|
  {
    PythonBreak(t[i]) && t[i] != '\n' && !(t[i] == '\r' && i + 1 < |t| && t[i + 1] == '\n')
  }

  function EndOfLine(t: string, n: nat): nat
    requires n < |t|
  {
    if t[n] == '\r' && n + 1 < |t| && t[n + 1] == '\n' then n + 2 else n + 1
  }

  /** Length of the first line by Python's rules. */
  function PythonSpan(t: string): (n: nat)
    ensures n <= |t| && forall i :: 0 <= i < n ==> !PythonBreak(t[i])
    ensures n < |t| ==> PythonBreak(t[n])
  {
    if t == [] || PythonBreak(t[0]) then 0 else 1 + PythonSpan(t[1..])
  }

  /** Length of the first line by TOML's rules. */
  function TomlSpan(t: string): (n: nat)
    ensures n <= |t|
    ensures n < |t| ==> t[n] == '\n' || (t[n] == '\r' && n + 1 < |t| && t[n + 1] == '\n')
  {
    if t == [] || t[0] == '\n' || (t[0] == '\r' && 1 < |t| && t[1] == '\n') then 0 else 1 + TomlSpan(t[1..])
  }

  /** splitlines. */
  function PythonLines(t: string): seq<string>
    decreases |t|
  {
    if t == [] then []
    else
      var n := PythonSpan(t);
      if n == |t| then [t] else [t[..n]] + PythonLines(t[EndOfLine(t, n)..])
  }

  function TomlLines(t: string): seq<string>
    decreases |t|
  {
    if t == [] then []
    else
      var n := TomlSpan(t);
      if n == |t| then [t] else [t[..n]] + TomlLines(t[EndOfLine(t, n)..])
  }

  lemma {:induction false} SpanAt(a: string, rest: string)
    requires rest != "" && PythonBreak(rest[0]) && forall i :: 0 <= i < |a| ==> !PythonBreak(a[i])
    ensures PythonSpan(a + rest) == |a|
    ensures rest[0] == '\n' || (rest[0] == '\r' && |rest| > 1 && rest[1] == '\n') ==> TomlSpan(a + rest) == |a|
  {
    if a == "" {
      assert a + rest == rest;
    } else {
      assert (a + rest)[1..] == a[1..] + rest;
      SpanAt(a[1..], rest);
    }
  }

  /** A line ends at a newline or at a carriage return with a newline; for Python at any other break too. */
  lemma LinesExact(a: string, rest: string)
    requires forall i :: 0 <= i < |a| ==> !PythonBreak(a[i])
    ensures TomlLines(a + "\n" + rest) == [a] + TomlLines(rest)
    ensures TomlLines(a + "\r\n" + rest) == [a] + TomlLines(rest)
    ensures PythonLines(a + "\r\n" + rest) == [a] + PythonLines(rest)
    ensures forall c: char :: PythonBreak(c) && !(c == '\r' && rest != "" && rest[0] == '\n') ==>
              PythonLines(a + [c] + rest) == [a] + PythonLines(rest)
  {
    hide PythonSpan, TomlSpan;
    LineEnds(a, "\n", rest);
    LineEnds(a, "\r\n", rest);
    hide PythonBreak;
    forall c: char | PythonBreak(c) && !(c == '\r' && rest != "" && rest[0] == '\n')
      ensures PythonLines(a + [c] + rest) == [a] + PythonLines(rest)
    {
      LineEnds(a, [c], rest);
    }
  }

  lemma Cut(a: string, end: string, rest: string)
    requires end != ""
    ensures var t := a + end + rest;
            && t == a + (end + rest) && t[..|a|] == a && t[|a|] == end[0] && t[|a| + |end|..] == rest
            && (|a| + 1 < |t| ==> t[|a| + 1] == (end + rest)[1])
  {
  }

  lemma LineEnds(a: string, end: string, rest: string)
    requires forall i :: 0 <= i < |a| ==> !PythonBreak(a[i])
    requires |end| == 1 || (|end| == 2 && end[0] == '\r' && end[1] == '\n')
    requires PythonBreak(end[0]) && !(|end| == 1 && end[0] == '\r' && rest != "" && rest[0] == '\n')
    ensures PythonLines(a + end + rest) == [a] + PythonLines(rest)
    ensures end[0] == '\n' || |end| == 2 ==> TomlLines(a + end + rest) == [a] + TomlLines(rest)
  {
    var t := a + end + rest;
    Cut(a, end, rest);
    SpanAt(a, end + rest);
    assert (end + rest)[0] == end[0];
    assert |end + rest| > 1 ==> (end + rest)[1] == if |end| == 1 then rest[0] else end[1];
    hide PythonSpan, TomlSpan, PythonBreak;
    assert EndOfLine(t, |a|) == |a| + |end|;
    assert |t| > |a|;
  }

  lemma {:induction false} SpansAgree(t: string)
    requires forall i :: 0 <= i < |t| ==> !ForeignBreakAt(t, i)
    ensures PythonSpan(t) == TomlSpan(t)
  {
    if t != [] && !PythonBreak(t[0]) {
      forall i | 0 <= i < |t[1..]| ensures !ForeignBreakAt(t[1..], i) { assert !ForeignBreakAt(t, i + 1); }
      SpansAgree(t[1..]);
    } else if t != [] {
      assert !ForeignBreakAt(t, 0);
    }
  }

  lemma {:induction false} PythonLinesClean(t: string)
    ensures forall l :: l in PythonLines(t) ==> forall i :: 0 <= i < |l| ==> !PythonBreak(l[i])
    decreases |t|
  {
    if t != [] && PythonSpan(t) < |t| {
      PythonLinesClean(t[EndOfLine(t, PythonSpan(t))..]);
    }
  }

  /** A break that only Python knows stays inside one of TOML's lines. */
  lemma {:induction false} ForeignBreakStays(t: string, i: nat)
    requires i < |t| && ForeignBreakAt(t, i)
    ensures exists l :: l in TomlLines(t) && exists k :: 0 <= k < |l| && PythonBreak(l[k])
    decreases |t|
  {
    var n := TomlSpan(t);
    if n == |t| {
      assert t in TomlLines(t);
    } else {
      var end := EndOfLine(t, n);
      var rest := t[end..];
      if i < n {
        assert t[..n][i] == t[i];
        assert TomlLines(t)[0] == t[..n];
        assert t[..n] in TomlLines(t);
      } else {
        assert i >= end;
        assert ForeignBreakAt(rest, i - end);
        ForeignBreakStays(rest, i - end);
        var l :| l in TomlLines(rest) && exists k :: 0 <= k < |l| && PythonBreak(l[k]);
        assert l in TomlLines(t);
      }
    }
  }

  lemma {:induction false} LinesAgree(t: string)
    requires forall i :: 0 <= i < |t| ==> !ForeignBreakAt(t, i)
    ensures PythonLines(t) == TomlLines(t)
    decreases |t|
  {
    SpansAgree(t);
    if t != [] && PythonSpan(t) < |t| {
      var end := EndOfLine(t, PythonSpan(t));
      var rest := t[end..];
      forall i | 0 <= i < |rest| ensures !ForeignBreakAt(rest, i) { assert !ForeignBreakAt(t, end + i); }
      LinesAgree(rest);
    }
  }

  /** The editor sees the lines the TOML reader sees exactly when the text has no other line break,
      such as a vertical tab or U+2028 inside a string or a comment. */
  lemma SplitExact(t: string)
    ensures PythonLines(t) == TomlLines(t) <==> forall i :: 0 <= i < |t| ==> !ForeignBreakAt(t, i)
  {
    if forall i :: 0 <= i < |t| ==> !ForeignBreakAt(t, i) {
      LinesAgree(t);
    } else {
      var i :| 0 <= i < |t| && ForeignBreakAt(t, i);
      ForeignBreakStays(t, i);
      PythonLinesClean(t);
    }
  }
}
