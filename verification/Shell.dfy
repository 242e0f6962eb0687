/** Words for a shell: the printer of the curl snippets against the shell's own reader. */
module Shell {
  import opened Options

  // ---- the reader: sections 2.2.1, 2.2.2 and 2.3 of the POSIX.1-2017 Shell Command Language ----

  predicate Blank(c: char) {
    c == ' ' || c == '\t'
  }

  /** Unquoted, these make something other than a word of themselves: operators, expansions,
      double quotes and patterns. A newline ends the command. */
  predicate Special(c: char) {
    c in {'|', '&', ';', '<', '>', '(', ')', '$', '`', '"', '*', '?', '[', '\n'}
  }

  /** Special only as the first character of a word. */
  predicate SpecialFirst(c: char) {
    c == '#' || c == '~'
  }

  predicate Plain(c: char) {
    !Blank(c) && !Special(c) && c != '\'' && c != '\\'
  }

  /** Between words, in a word so far, or inside single quotes. */
  datatype Mode = Between | InWord(word: string) | InQuotes(word: string)

  function Prepend(word: string, rest: Option<seq<string>>): Option<seq<string>> {
    if rest.Some? then Some([word] + rest.value) else None
  }

  function Grown(mode: Mode, s: string): Mode
    requires !mode.InQuotes?
  {
    InWord((if mode.InWord? then mode.word else "") + s)
  }

  /** The words of a command, quotes removed; None when it holds more than literal words. */
  function Read(text: string, mode: Mode): Option<seq<string>>
    decreases |text|
  {
    if text == "" then
      match mode
      case Between => Some([])
      case InWord(word) => Some([word])
      case InQuotes(_) => None
    else
      var c, rest := text[0], text[1..];
      if mode.InQuotes? then
        if c == '\'' then Read(rest, InWord(mode.word)) else Read(rest, InQuotes(mode.word + [c]))
      else if Blank(c) then
        if mode.InWord? then Prepend(mode.word, Read(rest, Between)) else Read(rest, Between)
      else if c == '\'' then Read(rest, InQuotes(Grown(mode, "").word))
      else if c == '\\' then
        if rest == "" then None
        else if rest[0] == '\n' then Read(rest[1..], mode)
        else Read(rest[1..], Grown(mode, [rest[0]]))
      else if Special(c) || (mode.Between? && SpecialFirst(c)) then None
      else Read(rest, Grown(mode, [c]))
  }

  // ---- the printer ----

  /** Every quote closes the quotes, stands escaped outside them, and opens them again. */
  function EscapeQuotes(s: string): string {
    if s == "" then "" else (if s[0] == '\'' then "'\\''" else [s[0]]) + EscapeQuotes(s[1..])
  }

  /** Words that start like an option, a path or a placeholder are left as they are. */
  predicate LeftAlone(s: string) {
    s == "-d " || (s != "" && s[0] in {'_', '/', '-'})
  }

  /** `escapeShell`. */
  function EscapeShell(s: string): string {
    if LeftAlone(s) then s else "'" + EscapeQuotes(s) + "'"
  }

  /** The words, escaped and joined by spaces. */
  function Print(words: seq<string>): string {
    if words == [] then ""
    else if |words| == 1 then EscapeShell(words[0])
    else EscapeShell(words[0]) + " " + Print(words[1..])
  }

  // ---- quoted words are read back ----

  lemma {:induction false} ReadQuoted(s: string, acc: string, tail: string)
    ensures Read(EscapeQuotes(s) + "'" + tail, InQuotes(acc)) == Read(tail, InWord(acc + s))
    decreases s
  {
    var text := EscapeQuotes(s) + "'" + tail;
    if s == "" {
      assert text == "'" + tail && text[1..] == tail && acc + s == acc;
    } else {
      var more := EscapeQuotes(s[1..]) + "'" + tail;
      assert acc + s == acc + [s[0]] + s[1..];
      ReadQuoted(s[1..], acc + [s[0]], tail);
      if s[0] == '\'' {
        assert text == ['\'', '\\', '\'', '\''] + more;
        ReadEscapedQuote(acc, more);
      } else {
        assert text == [s[0]] + more && text[1..] == more;
      }
    }
  }

  lemma ReadEscapedQuote(acc: string, more: string)
    ensures Read(['\'', '\\', '\'', '\''] + more, InQuotes(acc)) == Read(more, InQuotes(acc + ['\'']))
  {
    var text := ['\'', '\\', '\'', '\''] + more;
    var text1, text3 := ['\\', '\'', '\''] + more, ['\''] + more;
    assert text[1..] == text1 && text1[1..][1..] == text3 && text3[1..] == more;
    assert Read(text, InQuotes(acc)) == Read(text1, InWord(acc));
    assert Read(text1, InWord(acc)) == Read(text3, InWord(acc + ['\'']));
    assert acc + ['\''] + "" == acc + ['\''];
  }

  lemma ReadEscaped(w: string, tail: string)
    requires !LeftAlone(w)
    ensures Read(EscapeShell(w) + tail, Between) == Read(tail, InWord(w))
  {
    var text := EscapeShell(w) + tail;
    assert text[1..] == EscapeQuotes(w) + "'" + tail;
    ReadQuoted(w, "", tail);
    assert "" + w == w && "" + "" == "";
  }

  // ---- words left alone ----

  predicate AllPlain(s: string) {
    forall i :: 0 <= i < |s| ==> Plain(s[i])
  }

  lemma {:induction false} ReadPlain(s: string, acc: string, tail: string)
    requires AllPlain(s)
    ensures Read(s + tail, InWord(acc)) == Read(tail, InWord(acc + s))
    decreases s
  {
    if s == "" {
      assert s + tail == tail && acc + s == acc;
    } else {
      assert (s + tail)[1..] == s[1..] + tail;
      assert acc + s == acc + [s[0]] + s[1..];
      ReadPlain(s[1..], acc + [s[0]], tail);
    }
  }

  lemma ReadPlainWord(s: string, tail: string)
    requires AllPlain(s) && s != "" && !SpecialFirst(s[0])
    ensures Read(s + tail, Between) == Read(tail, InWord(s))
  {
    assert (s + tail)[1..] == s[1..] + tail;
    assert [s[0]] + s[1..] == s && "" + [s[0]] == [s[0]];
    ReadPlain(s[1..], [s[0]], tail);
  }

  // ---- a word left alone that is not plain never comes back ----

  /** The place of the first space, or the length. */
  function FirstSpace(s: string): (n: nat)
    ensures n <= |s|
  {
    if s == "" || s[0] == ' ' then 0 else 1 + FirstSpace(s[1..])
  }

  lemma {:induction false} FirstSpaceAppend(a: string, b: string)
    ensures FirstSpace(a + b) == if FirstSpace(a) < |a| then FirstSpace(a) else |a| + FirstSpace(b)
  {
    if a == "" {
      assert a + b == b;
    } else {
      assert (a + b)[1..] == a[1..] + b;
      FirstSpaceAppend(a[1..], b);
    }
  }

  /** The word being read has got this much from the text: no later a first space than the text has,
      and an earlier one if the text starts with a quote or a backslash. */
  ghost predicate Gets(text: string, word: string, result: Option<seq<string>>, strictly: bool) {
    result.Some? ==>
      && result.value != [] && |word| <= |result.value[0]| && result.value[0][..|word|] == word
      && FirstSpace(result.value[0][|word|..]) + (if strictly then 1 else 0) <= FirstSpace(text)
  }

  lemma GetsOneMore(text: string, rest: string, word: string, c: char, result: Option<seq<string>>)
    requires text != "" && rest == text[1..] && Gets(rest, word + [c], result, false)
    requires text[0] == ' ' ==> c == ' '
    ensures Gets(text, word, result, false)
  {
    if result.Some? {
      var w := result.value[0];
      var x := w[|word|..];
      assert w[..|word| + 1][..|word|] == word && w[..|word| + 1][|word|] == c;
      assert x[0] == c && x[1..] == w[|word| + 1..];
    }
  }

  predicate Strict(text: string, mode: Mode) {
    mode.InWord? && text != "" && (text[0] == '\'' || text[0] == '\\')
  }

  lemma {:induction false} ReadGets(text: string, mode: Mode)
    requires !mode.Between?
    ensures Gets(text, mode.word, Read(text, mode), Strict(text, mode))
    decreases |text|
  {
    var word := mode.word;
    if text == "" {
    } else {
      var c, rest := text[0], text[1..];
      if mode.InQuotes? {
        if c == '\'' {
          ReadGets(rest, InWord(word));
        } else {
          ReadGets(rest, InQuotes(word + [c]));
          GetsOneMore(text, rest, word, c, Read(rest, InQuotes(word + [c])));
        }
      } else if Blank(c) {
      } else if c == '\'' {
        assert word + "" == word;
        ReadGets(rest, InQuotes(word));
      } else if c == '\\' {
        if rest != "" {
          ReadGetsEscaped(text, word);
        }
      } else if !Special(c) {
        ReadGets(rest, InWord(word + [c]));
        GetsOneMore(text, rest, word, c, Read(rest, InWord(word + [c])));
      }
    }
  }

  lemma ReadGetsEscaped(text: string, word: string)
    requires |text| > 1 && text[0] == '\\'
    ensures Gets(text, word, Read(text, InWord(word)), true)
    decreases |text|, 0
  {
    var rest := text[1..];
    var d, more := rest[0], rest[1..];
    assert FirstSpace(text) == 1 + FirstSpace(rest);
    if d == '\n' {
      ReadGets(more, InWord(word));
    } else {
      ReadGets(more, InWord(word + [d]));
      GetsOneMore(rest, more, word, d, Read(more, InWord(word + [d])));
    }
  }

  /** Up to the first character that is not plain. */
  function PlainPrefix(s: string): (n: nat)
    ensures n <= |s| && AllPlain(s[..n]) && (n < |s| ==> !Plain(s[n]))
  {
    if s == "" || !Plain(s[0]) then 0
    else
      var n := PlainPrefix(s[1..]);
      assert s[..n + 1] == [s[0]] + s[1..][..n];
      n + 1
  }

  lemma BadWordIsLost(w: string, tail: string)
    requires w != "" && Plain(w[0]) && !SpecialFirst(w[0]) && !AllPlain(w)
    requires tail != "" ==> tail[0] == ' '
    ensures var r := Read(w + tail, Between); r.Some? ==> r.value != [] && r.value[0] != w
  {
    var n := PlainPrefix(w);
    assert n < |w| by {
      assert w[..|w|] == w;
    }
    var p, text := w[..n], w[n..] + tail;
    assert w + tail == p + text && w == p + w[n..];
    ReadPlainWord(p, text);
    ReadGets(text, InWord(p));
    FirstSpaceAppend(p, w[n..]);
    FirstSpaceAppend(w[n..], tail);
    NoSpaceInPlain(p);
    var r := Read(text, InWord(p));
    if r.Some? {
      assert text[0] == w[n];
    }
  }

  lemma {:induction false} NoSpaceInPlain(p: string)
    requires AllPlain(p)
    ensures FirstSpace(p) == |p|
  {
    if p != "" {
      NoSpaceInPlain(p[1..]);
    }
  }

  // ---- the whole list ----

  /** A word comes back unless it is left alone with something in it that is not plain. */
  predicate ComesBack(w: string) {
    LeftAlone(w) ==> AllPlain(w)
  }

  predicate AllComeBack(words: seq<string>) {
    forall i :: 0 <= i < |words| ==> ComesBack(words[i])
  }

  lemma ReadGoodWord(w: string, tail: string)
    requires ComesBack(w)
    ensures Read(EscapeShell(w) + tail, Between) == Read(tail, InWord(w))
  {
    if LeftAlone(w) {
      ReadPlainWord(w, tail);
    } else {
      ReadEscaped(w, tail);
    }
  }

  lemma ReadSeparator(w: string, more: string)
    ensures Read(" " + more, InWord(w)) == Prepend(w, Read(more, Between))
  {
    assert (" " + more)[1..] == more;
  }

  /** Printing a list of words and reading the line gives the list back exactly when no word that is
      left alone holds a blank, a quote or another character the shell acts on. */
  lemma {:induction false} PrintedWordsAreReadBack(words: seq<string>)
    ensures Read(Print(words), Between) == Some(words) <==> AllComeBack(words)
    decreases words
  {
    if words != [] {
      var w, others := words[0], words[1..];
      assert words == [w] + others;
      var tail := if others == [] then "" else " " + Print(others);
      assert Print(words) == EscapeShell(w) + tail;
      assert Read("", InWord(w)) == Some([w]);
      hide Read, Print, EscapeShell, ComesBack;
      assert AllComeBack(words) <==> ComesBack(w) && AllComeBack(others) by {
        assert forall i :: 0 <= i < |others| ==> others[i] == words[i + 1];
      }
      if ComesBack(w) {
        ReadGoodWord(w, tail);
        if others == [] {
          assert words == [w];
        } else {
          PrintedWordsAreReadBack(others);
          ReadSeparator(w, Print(others));
          if Read(Print(words), Between) == Some(words) {
            assert Read(Print(others), Between).value == ([w] + Read(Print(others), Between).value)[1..];
          }
        }
      } else {
        LeftBad(w);
        BadWordIsLost(w, tail);
      }
    }
  }

  lemma LeftBad(w: string)
    requires !ComesBack(w)
    ensures w != "" && EscapeShell(w) == w && Plain(w[0]) && !SpecialFirst(w[0]) && !AllPlain(w)
  {
  }

  /** In particular, words that do not start with `_`, `-` or `/` always come back. */
  lemma QuotedWordsAreReadBack(words: seq<string>)
    requires forall i :: 0 <= i < |words| ==> words[i] == "" || words[i][0] !in {'_', '-', '/'}
    ensures Read(Print(words), Between) == Some(words)
  {
    PrintedWordsAreReadBack(words);
  }

  /** A path with a space in it is one that does not come back. */
  lemma PathWithSpaceIsLost()
    ensures Read(Print(["/a b"]), Between) != Some(["/a b"])
  {
    var w := "/a b";
    assert LeftAlone(w) && !Plain(w[2]);
    assert !ComesBack([w][0]);
    PrintedWordsAreReadBack([w]);
  }

  /** What is printed for words without and with a quote, and for those that are left alone. */
  lemma PrintsLookLike()
    ensures EscapeShell("") == "''" && EscapeShell("a b") == "'a b'"
    ensures EscapeShell("it's") == ['\'', 'i', 't', '\'', '\\', '\'', '\'', 's', '\'']
    ensures EscapeShell("-X") == "-X" && EscapeShell("/a b") == "/a b" && EscapeShell("_p") == "_p"
  {
    assert "it's"[1..] == "t's" && "t's"[1..] == "'s" && "'s"[1..] == "s" && "s"[1..] == "";
    assert "a b"[1..] == " b" && " b"[1..] == "b" && "b"[1..] == "";
    assert EscapeQuotes("s") == "s" && EscapeQuotes("'s") == ['\'', '\\', '\'', '\'', 's'];
  }

  /** Each of these, in a word left alone, loses it; letters, digits and the usual signs do not. */
  lemma PlainCharacters(c: char)
    ensures c in {' ', '\t', '\n', '|', '&', ';', '<', '>', '(', ')', '$', '`', '"', '*', '?', '[', '\'', '\\'}
            ==> !Plain(c)
    ensures 'a' <= c <= 'z' || 'A' <= c <= 'Z' || '0' <= c <= '9' ==> Plain(c)
    ensures c in {'-', '_', '/', '.', ':', '=', ',', '+', '@', '%'} ==> Plain(c)
  {
  }
}
