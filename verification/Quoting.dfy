/** `strconv.Quote`, with the table of printable characters left open. */
module Quoting {
  function HexDigit(d: nat): (c: char)
    requires d < 16
  {
    if d < 10 then (d + 48) as char else (d + 87) as char
  }

  function HexValue(c: char): (d: nat) {
    if '0' <= c <= '9' then c as int - 48 else if 'a' <= c <= 'f' then c as int - 87 else 0
  }

  function Pow16(n: nat): (r: nat)
    ensures r > 0
  {
    if n == 0 then 1 else 16 * Pow16(n - 1)
  }

  /** `n` in so many hexadecimal digits. */
  function Hex(n: nat, digits: nat): (r: string)
    ensures |r| == digits
  {
    if digits == 0 then "" else Hex(n / 16, digits - 1) + [HexDigit(n % 16)]
  }

  function Unhex(s: string): nat {
    if s == "" then 0 else 16 * Unhex(s[..|s| - 1]) + HexValue(s[|s| - 1])
  }

  lemma {:induction false} UnhexHex(n: nat, digits: nat)
    requires n < Pow16(digits)
    ensures Unhex(Hex(n, digits)) == n
  {
    UnhexMore(Hex(n / 16, if digits == 0 then 0 else digits - 1), HexDigit(n % 16));
    hide HexDigit, HexValue, Unhex;
    if digits == 0 {
      UnhexOfNone();
    } else {
      UnhexHex(n / 16, digits - 1);
      DigitIsRead(n % 16);
    }
  }

  lemma UnhexMore(s: string, c: char)
    ensures Unhex(s + [c]) == 16 * Unhex(s) + HexValue(c)
  {
    hide HexValue;
    assert (s + [c])[..|s|] == s;
  }

  lemma UnhexOfNone()
    ensures Unhex("") == 0
  {
  }

  lemma DigitIsRead(d: nat)
    requires d < 16
    ensures HexValue(HexDigit(d)) == d
  {
  }

  /** The letter that names a control character after a backslash. */
  function Named(c: char): (r: string) {
    if c as int == 7 then "a"
    else if c as int == 8 then "b"
    else if c as int == 12 then "f"
    else if c as int == 10 then "n"
    else if c as int == 13 then "r"
    else if c as int == 9 then "t"
    else if c as int == 11 then "v"
    else ""
  }

  /** One character of a quoted string. */
  function Escape(isPrint: char -> bool, c: char): (r: string) {
    if c == '"' || c == '\\' then ['\\', c]
    else if isPrint(c) then [c]
    else if Named(c) != "" then ['\\'] + Named(c)
    else if c < ' ' || c as int == 127 then "\\x" + Hex(c as int, 2)
    else if c as int < 0x10000 then "\\u" + Hex(c as int, 4)
    else "\\U" + Hex(c as int, 8)
  }

  function Body(isPrint: char -> bool, s: string): string {
    if s == "" then "" else Escape(isPrint, s[0]) + Body(isPrint, s[1..])
  }

  function Quote(isPrint: char -> bool, s: string): string {
    "\"" + Body(isPrint, s) + "\""
  }

  /** Read back the first escaped character of a stream and how long it is. */
  function Unescape(s: string): (r: (int, nat)) {
    if s == "" then (0, 0)
    else if s[0] != '\\' then (s[0] as int, 1)
    else if |s| < 2 then (0, 0)
    else if s[1] == 'a' then (7, 2)
    else if s[1] == 'b' then (8, 2)
    else if s[1] == 'f' then (12, 2)
    else if s[1] == 'n' then (10, 2)
    else if s[1] == 'r' then (13, 2)
    else if s[1] == 't' then (9, 2)
    else if s[1] == 'v' then (11, 2)
    else if s[1] == 'x' && |s| >= 4 then (Unhex(s[2..4]), 4)
    else if s[1] == 'u' && |s| >= 6 then (Unhex(s[2..6]), 6)
    else if s[1] == 'U' && |s| >= 10 then (Unhex(s[2..10]), 10)
    else (s[1] as int, 2)
  }

  lemma EscapeHead(isPrint: char -> bool, c: char)
    ensures Escape(isPrint, c) != "" && Escape(isPrint, c)[0] != '"'
  {
  }

  lemma UnescapeHex(tag: char, digits: nat, n: nat, rest: string)
    requires (tag == 'x' && digits == 2) || (tag == 'u' && digits == 4) || (tag == 'U' && digits == 8)
    requires n < Pow16(digits)
    ensures Unescape(['\\', tag] + Hex(n, digits) + rest) == (n, 2 + digits)
  {
    var s := ['\\', tag] + Hex(n, digits) + rest;
    assert s[2..2 + digits] == Hex(n, digits);
    UnhexHex(n, digits);
    hide Hex, Unhex, Pow16;
  }

  lemma Powers()
    ensures Pow16(2) == 0x100 && Pow16(4) == 0x10000 && Pow16(8) == 0x1_0000_0000
  {
    assert Pow16(3) == 0x1000;
    assert Pow16(5) == 0x10_0000 && Pow16(6) == 0x100_0000 && Pow16(7) == 0x1000_0000;
  }

  lemma UnescapeEscape(isPrint: char -> bool, c: char, rest: string)
    ensures Unescape(Escape(isPrint, c) + rest) == (c as int, |Escape(isPrint, c)|)
  {
    Powers();
    hide Hex, Unhex, Pow16;
    if c == '"' || c == '\\' || isPrint(c) || Named(c) != "" {
    } else if c < ' ' || c as int == 127 {
      hide Unescape;
      UnescapeHex('x', 2, c as int, rest);
      assert Escape(isPrint, c) == ['\\', 'x'] + Hex(c as int, 2);
    } else if c as int < 0x10000 {
      hide Unescape;
      UnescapeHex('u', 4, c as int, rest);
      assert Escape(isPrint, c) == ['\\', 'u'] + Hex(c as int, 4);
    } else {
      hide Unescape;
      UnescapeHex('U', 8, c as int, rest);
      assert Escape(isPrint, c) == ['\\', 'U'] + Hex(c as int, 8);
    }
  }

  lemma EscapeIsPrefixFree(isPrint: char -> bool, c: char, x: string, d: char, y: string)
    requires Escape(isPrint, c) + x == Escape(isPrint, d) + y
    ensures c == d && x == y
  {
    UnescapeEscape(isPrint, c, x);
    UnescapeEscape(isPrint, d, y);
    assert x == (Escape(isPrint, c) + x)[|Escape(isPrint, c)|..];
    assert y == (Escape(isPrint, d) + y)[|Escape(isPrint, d)|..];
  }

  lemma {:induction false} BodyEnds(isPrint: char -> bool, s: string, x: string, t: string, y: string)
    requires Body(isPrint, s) + "\"" + x == Body(isPrint, t) + "\"" + y
    ensures s == t && x == y
    decreases s
  {
    hide Escape;
    if s != "" {
      EscapeHead(isPrint, s[0]);
    }
    if t != "" {
      EscapeHead(isPrint, t[0]);
    }
    FirstQuote(isPrint, s, x);
    FirstQuote(isPrint, t, y);
    if s == "" {
      assert x == (Body(isPrint, s) + "\"" + x)[1..] && y == (Body(isPrint, t) + "\"" + y)[1..];
    } else {
      BodyUnfolds(isPrint, s, x);
      BodyUnfolds(isPrint, t, y);
      EscapeIsPrefixFree(isPrint, s[0], Body(isPrint, s[1..]) + "\"" + x, t[0], Body(isPrint, t[1..]) + "\"" + y);
      BodyEnds(isPrint, s[1..], x, t[1..], y);
      assert s == [s[0]] + s[1..] && t == [t[0]] + t[1..];
    }
  }

  lemma BodyUnfolds(isPrint: char -> bool, s: string, x: string)
    requires s != ""
    ensures Body(isPrint, s) + "\"" + x == Escape(isPrint, s[0]) + (Body(isPrint, s[1..]) + "\"" + x)
  {
    hide Escape;
  }

  lemma FirstQuote(isPrint: char -> bool, s: string, x: string)
    ensures (Body(isPrint, s) + "\"" + x)[0] == '"' <==> s == ""
  {
    if s != "" {
      EscapeHead(isPrint, s[0]);
      hide Escape;
      BodyUnfolds(isPrint, s, x);
    }
  }

  /** A quoted string can be told from whatever follows it, and only that string was quoted. */
  lemma QuoteIsSelfDelimiting(isPrint: char -> bool, s: string, x: string, t: string, y: string)
    requires Quote(isPrint, s) + x == Quote(isPrint, t) + y
    ensures s == t && x == y
  {
    QuoteOpens(isPrint, s, x);
    QuoteOpens(isPrint, t, y);
    hide Quote, Body;
    BodyEnds(isPrint, s, x, t, y);
  }

  lemma QuoteOpens(isPrint: char -> bool, s: string, x: string)
    ensures Quote(isPrint, s) + x != "" && (Quote(isPrint, s) + x)[1..] == Body(isPrint, s) + "\"" + x
  {
    hide Body;
  }

  /** Nothing unprintable gets through, so a quoted string stays on its line. */
  lemma {:induction false} BodyIsPrintable(isPrint: char -> bool, s: string)
    ensures forall i :: 0 <= i < |Body(isPrint, s)| ==>
              isPrint(Body(isPrint, s)[i]) || '"' <= Body(isPrint, s)[i] <= '~'
    decreases s
  {
    if s != "" {
      BodyIsPrintable(isPrint, s[1..]);
      EscapeIsPrintable(isPrint, s[0]);
    }
  }

  lemma {:induction false} HexIsAscii(n: nat, digits: nat)
    ensures forall i :: 0 <= i < digits ==> '0' <= Hex(n, digits)[i] <= 'f'
  {
    if digits > 0 {
      HexIsAscii(n / 16, digits - 1);
    }
  }

  lemma EscapeIsPrintable(isPrint: char -> bool, c: char)
    ensures forall i :: 0 <= i < |Escape(isPrint, c)| ==>
              isPrint(Escape(isPrint, c)[i]) || '"' <= Escape(isPrint, c)[i] <= '~'
  {
    HexIsAscii(c as int, 2);
    HexIsAscii(c as int, 4);
    HexIsAscii(c as int, 8);
  }
}
