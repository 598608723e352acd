/** Python's `repr` of a string and `str` of a list of strings, as an
    f-string renders a list: the quote is `'` unless the string holds a `'`
    and no `"`; backslash, the chosen quote, tab, newline and carriage
    return are escaped, and the other unprintable code points up to U+00AD
    are written as `\xhh`. Every other character is copied. */
module Repr {
  import opened Text

  /** The quote `repr` puts around `s`. */
  function QuoteFor(s: string): (q: char)
    ensures q == '\'' || q == '"'
    ensures q == '"' <==> '\'' in s && '"' !in s
  {
    if '\'' in s && '"' !in s then '"' else '\''
  }

  /** The code points `repr` writes as `\xhh` (besides tab, newline and
      carriage return): the C0 controls, DEL, the C1 controls, the
      no-break space and the soft hyphen. */
  predicate Unprintable(c: char) {
    c as int < 0x20 || 0x7F <= c as int <= 0xA0 || c as int == 0xAD
  }

  function HexDigit(n: nat): (c: char)
    requires n < 16
    ensures IsHexDigit(c)
  {
    "0123456789abcdef"[n]
  }

  predicate IsHexDigit(c: char) {
    '0' <= c <= '9' || 'a' <= c <= 'f'
  }

  function HexValue(c: char): (n: nat)
    requires IsHexDigit(c)
    ensures n < 16
  {
    if c <= '9' then c as int - '0' as int else c as int - 'a' as int + 10
  }

  lemma HexValueOfDigit(n: nat)
    requires n < 16
    ensures HexValue(HexDigit(n)) == n
  {
  }

  /** How one character appears inside the quotes `q`. */
  function EscapeChar(c: char, q: char): (e: string)
    ensures |e| > 0
  {
    if c == '\\' then "\\\\"
    else if c == q then ['\\', q]
    else if c == '\t' then "\\t"
    else if c == '\n' then "\\n"
    else if c == '\r' then "\\r"
    else if Unprintable(c) then "\\x" + [HexDigit(c as int / 16), HexDigit(c as int % 16)]
    else [c]
  }

  /** The characters of `s` between the quotes `q`. */
  function Escape(s: string, q: char): (e: string)
    ensures |e| >= |s|
  {
    if |s| == 0 then "" else EscapeChar(s[0], q) + Escape(s[1..], q)
  }

  /** `repr(s)`. */
  function StrRepr(s: string): (r: string)
    ensures |r| >= |s| + 2
    ensures r[0] == r[|r| - 1] == QuoteFor(s)
  {
    var q := QuoteFor(s);
    [q] + Escape(s, q) + [q]
  }

  /** `str(xs)` for a list of strings: the items' `repr`s, comma-separated,
      in brackets. */
  function ListRepr(xs: seq<string>): (r: string)
    ensures |r| >= 2 && r[0] == '[' && r[|r| - 1] == ']'
  {
    "[" + Join(seq(|xs|, i requires 0 <= i < |xs| => StrRepr(xs[i])), ", ") + "]"
  }

  /** The character an escape `\c` stands for. */
  function Unescaped(c: char): char {
    if c == 't' then '\t' else if c == 'n' then '\n' else if c == 'r' then '\r' else c
  }

  /** Reads the characters between a `repr`'s quotes back. */
  function Unescape(t: string): string
    decreases |t|
  {
    if |t| == 0 then ""
    else if t[0] == '\\' && |t| >= 2 then
      if t[1] == 'x' && |t| >= 4 && IsHexDigit(t[2]) && IsHexDigit(t[3]) then
        [(HexValue(t[2]) * 16 + HexValue(t[3])) as char] + Unescape(t[4..])
      else [Unescaped(t[1])] + Unescape(t[2..])
    else [t[0]] + Unescape(t[1..])
  }

  /** Reads a whole `repr` back: the text between its quotes, unescaped. */
  function Unrepr(r: string): string
    requires |r| >= 2
  {
    Unescape(r[1..|r| - 1])
  }

  /** One escaped character reads back as itself, whatever follows. */
  lemma UnescapeChar(c: char, q: char, rest: string)
    requires q == '\'' || q == '"'
    ensures Unescape(EscapeChar(c, q) + rest) == [c] + Unescape(rest)
  {
    var t := EscapeChar(c, q) + rest;
    if c == '\\' || c == q || c == '\t' || c == '\n' || c == '\r' {
      assert t[0] == '\\' && t[2..] == rest;
    } else if Unprintable(c) {
      var hi, lo := c as int / 16, c as int % 16;
      HexValueOfDigit(hi);
      HexValueOfDigit(lo);
      assert t[0] == '\\' && t[1] == 'x' && t[2] == HexDigit(hi) && t[3] == HexDigit(lo);
      assert t[4..] == rest;
      assert (hi * 16 + lo) as char == c;
    } else {
      assert t[0] == c && t[1..] == rest;
    }
  }

  /** Unescaping undoes escaping. */
  lemma {:induction false} UnescapeEscape(s: string, q: char)
    requires q == '\'' || q == '"'
    ensures Unescape(Escape(s, q)) == s
    decreases |s|
  {
    if |s| > 0 {
      UnescapeChar(s[0], q, Escape(s[1..], q));
      UnescapeEscape(s[1..], q);
    }
  }

  /** `repr` loses nothing: the string can be read back from it. */
  lemma ReprRoundTrip(s: string)
    ensures Unrepr(StrRepr(s)) == s
  {
    var q := QuoteFor(s);
    var r := StrRepr(s);
    assert r[1..|r| - 1] == Escape(s, q);
    UnescapeEscape(s, q);
  }

  /** A string with no quote, backslash or escaped character is shown
      between single quotes as it is. */
  lemma PlainRepr(s: string)
    requires forall i :: 0 <= i < |s| ==> s[i] != '\'' && s[i] != '"' && Plain(s[i], '\'')
    ensures StrRepr(s) == "'" + s + "'"
  {
    PlainEscape(s, '\'');
  }

  /** `c` is copied as it is between the quotes `q`. */
  predicate Plain(c: char, q: char) {
    c != '\\' && c != q && c as int >= 0x20 && !Unprintable(c)
  }

  lemma {:induction false} PlainEscape(s: string, q: char)
    requires forall i :: 0 <= i < |s| ==> Plain(s[i], q)
    ensures Escape(s, q) == s
    decreases |s|
  {
    if |s| > 0 {
      PlainEscape(s[1..], q);
      assert s == [s[0]] + s[1..];
    }
  }

  lemma {:induction false} EscapeAppend(a: string, b: string, q: char)
    ensures Escape(a + b, q) == Escape(a, q) + Escape(b, q)
    decreases |a|
  {
    if |a| == 0 {
      assert a + b == b;
    } else {
      var c, t := a[0], a[1..];
      assert a == [c] + t && a + b == [c] + (t + b);
      EscapeAppend(t, b, q);
      EscapeCons(c, t, q);
      EscapeCons(c, t + b, q);
      ConcatAssoc(EscapeChar(c, q), Escape(t, q), Escape(b, q));
    }
  }

  lemma ConcatAssoc(x: string, y: string, z: string)
    ensures x + (y + z) == (x + y) + z
  {
  }

  lemma EscapeCons(c: char, t: string, q: char)
    ensures Escape([c] + t, q) == EscapeChar(c, q) + Escape(t, q)
  {
    assert ([c] + t)[0] == c && ([c] + t)[1..] == t;
  }

  /** `str` of a one-item list is that item's `repr` in brackets. */
  lemma ListReprSingle(s: string)
    ensures ListRepr([s]) == "[" + StrRepr(s) + "]"
  {
    assert seq(1, i requires 0 <= i < 1 => StrRepr([s][i])) == [StrRepr(s)];
  }

  /** A single quote in the string switches `repr` to double quotes, so
      "don't" is shown as `"don't"`. */
  lemma SingleQuoteShownInDoubleQuotes()
    ensures StrRepr("don't") == "\"" + "don't" + "\""
  {
    var s := "don't";
    DontQuote();
    DontPlain();
    PlainEscape(s, '"');
    QuotedAs(s, '"', s);
  }

  /** A string whose quote is `q` and whose escaped text is `e` is shown as
      `e` between two `q`s. */
  lemma QuotedAs(s: string, q: char, e: string)
    requires QuoteFor(s) == q && Escape(s, q) == e
    ensures StrRepr(s) == [q] + e + [q]
  {
  }

  /** The one-item list of "don't" is shown as `["don't"]`. */
  lemma ApostropheListRepr()
    ensures ListRepr(["don't"]) == "[" + "\"" + "don't" + "\"" + "]"
  {
    SingleQuoteShownInDoubleQuotes();
    SingleListRepr("don't", "\"" + "don't" + "\"");
    Bracketed("\"", "don't", "\"");
  }

  lemma SingleListRepr(s: string, shown: string)
    requires StrRepr(s) == shown
    ensures ListRepr([s]) == "[" + shown + "]"
  {
    ListReprSingle(s);
  }

  lemma Bracketed(a: string, b: string, c: string)
    ensures "[" + (a + b + c) + "]" == "[" + a + b + c + "]"
  {
  }

  lemma DontQuote()
    ensures QuoteFor("don't") == '"'
  {
    var s := "don't";
    assert s[3] == '\'';
    assert forall i :: 0 <= i < |s| ==> s[i] != '"';
  }

  lemma DontPlain()
    ensures forall i :: 0 <= i < |"don't"| ==> Plain("don't"[i], '"')
  {
    var s := "don't";
    assert s[0] == 'd' && s[1] == 'o' && s[2] == 'n' && s[3] == '\'' && s[4] == 't';
  }

  /** With both quotes present, `repr` keeps single quotes and escapes the
      single quote inside. */
  lemma BothQuotesEscapeSingle()
    ensures StrRepr("it's \"x\"") == "'" + "it\\'" + "s \"x\"" + "'"
  {
    var x, y := "it\\'", "s \"x\"";
    BothQuotesKeepSingle();
    BothQuotesEscaped();
    QuotedAs("it's \"x\"", '\'', x + y);
    Regrouped("'", x, y, "'");
  }

  lemma Regrouped(l: string, a: string, b: string, r: string)
    ensures l + (a + b) + r == l + a + b + r
  {
  }

  lemma BothQuotesKeepSingle()
    ensures QuoteFor("it's \"x\"") == '\''
  {
    var s := "it's \"x\"";
    assert s[2] == '\'' && s[7] == '"';
  }

  lemma BothQuotesEscaped()
    ensures Escape("it's \"x\"", '\'') == "it\\'" + "s \"x\""
  {
    var a, b := "it'", "s \"x\"";
    assert "it's \"x\"" == a + b;
    EscapeAppend(a, b, '\'');
    EscapeQuotedX();
    EscapeItQuote();
  }

  lemma EscapeQuotedX()
    ensures Escape("s \"x\"", '\'') == "s \"x\""
  {
    var b := "s \"x\"";
    assert b[0] == 's' && b[1] == ' ' && b[2] == '"' && b[3] == 'x' && b[4] == '"';
    PlainEscape(b, '\'');
  }

  lemma EscapeItQuote()
    ensures Escape("it'", '\'') == "it\\'"
  {
    PlainEscape("it", '\'');
    assert Escape("'", '\'') == "\\'";
    EscapeAppend("it", "'", '\'');
    assert "it" + "'" == "it'";
  }
}
