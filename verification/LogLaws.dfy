/** What the log line looks like and hides, in literal terms. */
module LogLaws {
  import opened Arithmetic
  import opened LogKeys
  import opened LogLine
  import opened Options
  import opened Quoting
  import opened StringOrder

  // ---- keys ----

  lemma {:induction false} LowerIsSame(u: Tables, s: string)
    requires forall i :: 0 <= i < |s| ==> u.lower(s[i]) == s[i]
    ensures Lower(u, s) == s
  {
    if s != "" {
      LowerIsSame(u, s[1..]);
    }
  }

  lemma NothingToTrim(drop: char -> bool, s: string)
    requires s != "" ==> !drop(s[0]) && !drop(s[|s| - 1])
    ensures Trim(drop, s) == s
  {
  }

  /** Trimming takes off just what is to be dropped, at both ends. */
  lemma {:induction false} TrimTakesEnds(drop: char -> bool, x: string, m: string, y: string)
    requires (forall i :: 0 <= i < |x| ==> drop(x[i])) && (forall i :: 0 <= i < |y| ==> drop(y[i]))
    requires m != "" && !drop(m[0]) && !drop(m[|m| - 1])
    ensures Trim(drop, x + m + y) == m
    decreases |x| + |y|
  {
    var s := x + m + y;
    if x != "" {
      TrimTakesEnds(drop, x[1..], m, y);
      assert s[0] == x[0] && s[1..] == x[1..] + m + y;
    } else {
      assert s == m + y;
      TrimEnd(drop, m, y);
    }
  }

  lemma {:induction false} TrimEnd(drop: char -> bool, m: string, y: string)
    requires forall i :: 0 <= i < |y| ==> drop(y[i])
    requires m != "" && !drop(m[|m| - 1])
    ensures TrimRight(drop, m + y) == m
    decreases |y|
  {
    var s := m + y;
    if y == "" {
      assert s == m;
    } else {
      TrimEnd(drop, m, y[..|y| - 1]);
      assert s[|s| - 1] == y[|y| - 1] && s[..|s| - 1] == m + y[..|y| - 1];
    }
  }

  /** A key that lower-casing makes one word is that word. */
  lemma CaseDoesNotMatter(u: Tables, s: string, w: string)
    requires u.Valid() && Simple(w) && |s| == |w| && forall i :: 0 <= i < |s| ==> u.lower(s[i]) == w[i]
    ensures Key(u, s) == w
  {
    assert Lower(u, s) == w;
    NothingToTrim(u.isSpace, w);
    WordsOfSimple(w);
    KeyOfTrimmed(u, s);
    hide WordsOf, Lower, Trim, Key;
  }

  predicate Simple(w: string) {
    w != "" && forall i :: 0 <= i < |w| ==> 'a' <= w[i] <= 'z' || '0' <= w[i] <= '9'
  }

  lemma {:induction false} WordsOfSimple(w: string)
    requires Simple(w)
    ensures WordsOf(w) == Words([w], true)
  {
    assert WordsOf("") == Words([], false);
    hide WordsOf;
    ReadWord("", w);
    assert "" + w == w && [] + [w] == [w];
  }

  lemma {:induction false} MoreOfSimple(s: string, v: string, w: string)
    requires Simple(v) && Simple(w) && WordsOf(s) == Words([v], true)
    ensures WordsOf(s + w) == Words([v + w], true)
    decreases w
  {
    var n := |w| - 1;
    hide WordsOf;
    ReadLetter(v + w[..n], w[n]);
    WordsMore(s + w[..n], w[n]);
    hide Read;
    if n == 0 {
      assert w[..n] == "" && s + "" == s && v + "" == v;
    } else {
      MoreOfSimple(s, v, w[..n]);
    }
    assert s + w == s + w[..n] + [w[n]] && v + w == v + w[..n] + [w[n]];
  }

  lemma ReadLetter(v: string, c: char)
    requires Letter(c)
    ensures Read(Words([v], true), c) == Words([v + [c]], true)
  {
  }

  /** An underscore, a dash or a blank between two words becomes one underscore, any other character that is
      no lower-case letter and no digit disappears. */
  lemma CharacterBetween(u: Tables, v: string, c: char, w: string)
    requires u.Valid() && Simple(v) && Simple(w) && u.lower(c) == c && !('a' <= c <= 'z') && !('0' <= c <= '9')
    ensures Key(u, v + [c] + w) == if c == '_' || c == '-' || c == ' ' then v + "_" + w else v + w
  {
    hide WordsOf, Lower, Trim, Key, Read;
    var s := v + [c] + w;
    assert forall i :: 0 <= i < |s| ==> s[i] == (if i < |v| then v[i] else if i == |v| then c else w[i - |v| - 1]);
    LowerIsSame(u, s);
    NothingToTrim(u.isSpace, s);
    WordsOfSimple(v);
    WordsMore(v, c);
    ReadOther(v, c);
    JoinTwo(v, w);
    if c == '_' || c == '-' || c == ' ' {
      ReadWord(v + [c], w);
      assert [v] + [w] == [v, w];
    } else {
      MoreOfSimple(v + [c], v, w);
    }
    KeyOfTrimmed(u, s);
  }

  lemma ReadOther(v: string, c: char)
    requires !Letter(c)
    ensures Read(Words([v], true), c) == Words([v], !Separator(c))
  {
  }

  lemma JoinTwo(v: string, w: string)
    ensures Join([v, w]) == v + "_" + w && Join([v + w]) == v + w
  {
    assert [v, w][..1] == [v];
  }

  // ---- what is hidden ----

  lemma {:induction false} UnderscoresGo(v: string, w: string)
    ensures WithoutUnderscores(v + "_" + w) == WithoutUnderscores(v) + WithoutUnderscores(w)
    decreases v
  {
    if v == "" {
      OneGoes('_', w);
      assert WithoutUnderscores("") == "";
      assert v + "_" + w == ['_'] + w;
    } else {
      var rest := v[1..] + "_" + w;
      OneGoes(v[0], v[1..]);
      OneGoes(v[0], rest);
      hide WithoutUnderscores;
      UnderscoresGo(v[1..], w);
      assert v == [v[0]] + v[1..] && v + "_" + w == [v[0]] + rest;
    }
  }

  lemma OneGoes(c: char, rest: string)
    ensures WithoutUnderscores([c] + rest) == (if c == '_' then "" else [c]) + WithoutUnderscores(rest)
  {
    assert ([c] + rest)[1..] == rest;
  }

  lemma {:induction false} NothingElseGoes(v: string)
    requires forall i :: 0 <= i < |v| ==> v[i] != '_'
    ensures WithoutUnderscores(v) == v
  {
    if v != "" {
      NothingElseGoes(v[1..]);
    }
  }

  lemma ContainsMiddle(x: string, f: string, y: string)
    ensures Contains(x + f + y, f)
  {
    assert f <= (x + f + y)[|x|..] by {
      assert (x + f + y)[|x|..] == f + y;
    }
  }

  lemma FragmentsAreNine()
    ensures forall f :: f in SENSITIVE_FRAGMENTS <==>
              f in {"password", "passwd", "pwd", "token", "secret", "apikey", "authorization", "cookie", "setcookie"}
  {
  }

  /** A key that holds one of the nine fragments, underscores aside, hides its value whatever was passed. */
  lemma FragmentsAreHidden(lib: Library, component: string, fields: seq<Field>, source: Option<string>, name: string,
                           x: string, f: string, y: string)
    requires lib.tables.Valid()
    requires f in {"password", "passwd", "pwd", "token", "secret", "apikey", "authorization", "cookie", "setcookie"}
    requires WithoutUnderscores(Key(lib.tables, name)) == x + f + y
    ensures var k, m := Key(lib.tables, name), Collect(lib, component, fields, source);
            k in m && k != "component" && k != "source" ==> m[k] == "[REDACTED]"
  {
    var k := Key(lib.tables, name);
    KeyIsIdempotent(lib.tables, name);
    ContainsMiddle(x, f, y);
    FragmentsAreNine();
    if k != "component" && k != "source" {
      assert f in SENSITIVE_FRAGMENTS;
      hide Key, WithoutUnderscores, Contains, Collect;
      assert Sensitive(lib.tables, k);
      SensitiveValuesAreHidden(lib, component, fields, source, k);
    }
  }

  /** For one, the value of `api_key`. */
  lemma ApiKeyIsHidden(lib: Library, component: string, fields: seq<Field>, source: Option<string>, name: string)
    requires lib.tables.Valid() && Key(lib.tables, name) == "api_key"
    ensures var m := Collect(lib, component, fields, source); "api_key" in m ==> m["api_key"] == "[REDACTED]"
  {
    UnderscoresGo("api", "key");
    NothingElseGoes("api");
    NothingElseGoes("key");
    hide Key, WithoutUnderscores, Collect;
    assert "api" + "_" + "key" == "api_key" && "api" + "key" == "" + "apikey" + "";
    FragmentsAreHidden(lib, component, fields, source, name, "", "apikey", "");
  }

  // ---- what is shown ----

  lemma {:induction false} AddAllLast(lib: Library, values: Values, fields: seq<Field>, i: nat)
    requires i < |fields| && Key(lib.tables, fields[i].key) != ""
    requires forall j :: i < j < |fields| ==> Key(lib.tables, fields[j].key) != Key(lib.tables, fields[i].key)
    ensures var k, all := Key(lib.tables, fields[i].key), AddAll(lib, values, fields);
            k in all && all[k] == Sanitize(lib, k, fields[i].value)
    decreases |fields|
  {
    hide Key, Sanitize;
    if i < |fields| - 1 {
      AddAllLast(lib, values, fields[..|fields| - 1], i);
    }
  }

  /** Any other key shows what was passed last under it, trimmed and gone through the patterns. */
  lemma OtherValuesAreShown(lib: Library, component: string, fields: seq<Field>, source: Option<string>, i: nat)
    requires lib.tables.Valid() && i < |fields| && Key(lib.tables, fields[i].key) != ""
    requires forall j :: i < j < |fields| ==> Key(lib.tables, fields[j].key) != Key(lib.tables, fields[i].key)
    requires var plain := WithoutUnderscores(Key(lib.tables, fields[i].key));
             forall f :: f in {"password", "passwd", "pwd", "token", "secret", "apikey"} ==> !Contains(plain, f)
    requires var plain := WithoutUnderscores(Key(lib.tables, fields[i].key));
             forall f :: f in {"authorization", "cookie", "setcookie"} ==> !Contains(plain, f)
    requires source.Some? ==> Key(lib.tables, fields[i].key) != "source"
    ensures var k, m := Key(lib.tables, fields[i].key), Collect(lib, component, fields, source);
            var t := Trim(lib.tables.isSpace, fields[i].value);
            k in m && m[k] == if t == "" then "" else lib.redactPatterns(t)
  {
    var k := Key(lib.tables, fields[i].key);
    KeyIsIdempotent(lib.tables, fields[i].key);
    FragmentsAreNine();
    hide Key, WithoutUnderscores, Contains, Trim;
    AddAllLast(lib, WithComponent(lib, component), fields, i);
    NotSensitive(lib.tables, k);
  }

  lemma NotSensitive(u: Tables, k: string)
    requires Key(u, k) == k
    requires forall f :: f in SENSITIVE_FRAGMENTS ==> !Contains(WithoutUnderscores(k), f)
    ensures !Sensitive(u, k)
  {
    hide Key, WithoutUnderscores, Contains;
    assert forall i :: 0 <= i < |SENSITIVE_FRAGMENTS| ==> SENSITIVE_FRAGMENTS[i] in SENSITIVE_FRAGMENTS;
  }

  lemma SourceIsShown(lib: Library, component: string, fields: seq<Field>, source: string)
    ensures Collect(lib, component, fields, Some(source))["source"] == source
  {
  }

  lemma {:induction false} AddAllOther(lib: Library, values: Values, fields: seq<Field>, k: string)
    requires forall j :: 0 <= j < |fields| ==> Key(lib.tables, fields[j].key) != k
    ensures k in AddAll(lib, values, fields) <==> k in values
    ensures k in values ==> AddAll(lib, values, fields)[k] == values[k]
    decreases |fields|
  {
    hide Key, Sanitize;
    if fields != [] {
      AddAllOther(lib, values, fields[..|fields| - 1], k);
    }
  }

  /** The logger's own component, unless a field of that name replaces it. */
  lemma ComponentIsShown(lib: Library, component: string, fields: seq<Field>, source: Option<string>)
    requires forall j :: 0 <= j < |fields| ==> Key(lib.tables, fields[j].key) != "component"
    requires Trim(lib.tables.isSpace, component) != ""
    ensures var c := lib.redactPatterns(Trim(lib.tables.isSpace, component));
            var m := Collect(lib, component, fields, source);
            if c == "" then "component" !in m else "component" in m && m["component"] == c
  {
    hide Key, Trim;
    AddAllOther(lib, WithComponent(lib, component), fields, "component");
    hide AddAll;
  }

  // ---- how it is printed ----

  lemma {:induction false} FilterKeepsOrder(keys: seq<string>, all: set<string>, i: nat, j: nat)
    requires i < j < |keys| && keys[i] in all && keys[j] in all
    ensures exists p, q :: 0 <= p < q < |Filter(keys, all)| && Filter(keys, all)[p] == keys[i]
                           && Filter(keys, all)[q] == keys[j]
    decreases |keys|
  {
    var n := |keys| - 1;
    var rest, whole := Filter(keys[..n], all), Filter(keys, all);
    assert whole == rest + if keys[n] in all then [keys[n]] else [];
    assert keys[i] in keys[..n] && keys[i] in rest;
    hide Filter;
    if j < n {
      FilterKeepsOrder(keys[..n], all, i, j);
      var p, q :| 0 <= p < q < |rest| && rest[p] == keys[i] && rest[q] == keys[j];
      assert whole[p] == keys[i] && whole[q] == keys[j];
    } else {
      var p :| 0 <= p < |rest| && rest[p] == keys[i];
      assert whole[p] == keys[i] && whole[|rest|] == keys[j];
    }
  }

  /** Known keys stand in this order, and before all others, which are sorted. */
  lemma KnownKeysComeFirst(shown: Values, i: nat, j: nat)
    requires i < j < 17
    ensures var known := ["component", "event", "operation", "request_id", "trace_id", "span_id", "trace_flags",
                          "method", "path", "status_code", "duration_ms", "address", "state", "error_type",
                          "exception_recorded", "error", "source"];
            known[i] in shown && known[j] in shown ==>
              exists p, q :: 0 <= p < q < |KeyOrder(shown)| && KeyOrder(shown)[p] == known[i]
                             && KeyOrder(shown)[q] == known[j]
  {
    var keys := ORDERED_KEYS;
    if keys[i] in shown && keys[j] in shown {
      FilterKeepsOrder(keys, shown.Keys, i, j);
      var f := Filter(keys, shown.Keys);
      var p, q :| 0 <= p < q < |f| && f[p] == keys[i] && f[q] == keys[j];
      hide Filter;
      assert KeyOrder(shown)[p] == keys[i] && KeyOrder(shown)[q] == keys[j];
    }
  }

  lemma OthersComeLast(shown: Values) returns (n: nat)
    ensures n <= |KeyOrder(shown)| && Increasing(KeyOrder(shown)[n..])
    ensures forall p :: 0 <= p < |KeyOrder(shown)| ==> (KeyOrder(shown)[p] in ORDERED_KEYS <==> p < n)
  {
    var known, others := Filter(ORDERED_KEYS, shown.Keys), Sorted(shown.Keys - (set k | k in ORDERED_KEYS));
    n := |known|;
    assert KeyOrder(shown) == known + others;
    assert forall x :: x in known ==> x in ORDERED_KEYS;
    assert forall x :: x in others ==> x !in ORDERED_KEYS;
    hide ORDERED_KEYS, KeyOrder, Filter, Sorted;
    assert (known + others)[n..] == others;
    forall p | 0 <= p < |known + others|
      ensures (known + others)[p] in ORDERED_KEYS <==> p < n
    {
      if p < n {
        assert known[p] in known;
      } else {
        assert others[p - n] in others;
      }
    }
  }

  lemma {:induction false} BodyOfPlain(isPrint: char -> bool, s: string)
    requires forall i :: 0 <= i < |s| ==> isPrint(s[i]) && s[i] != '"' && s[i] != '\\'
    ensures Body(isPrint, s) == s
    decreases |s|
  {
    if s != "" {
      BodyOfPlain(isPrint, s[1..]);
      assert s == [s[0]] + s[1..];
    }
  }

  function Quoted(s: string): string {
    "\"" + s + "\""
  }

  /** A line with a known key and another. */
  lemma LineLooksLike(lib: Library, level: string, message: string, shown: Values)
    requires shown.Keys == {"state", "attempt"}
    requires forall i :: 0 <= i < |message| ==> Ordinary(lib, message[i])
    requires forall k, i :: k in shown && 0 <= i < |shown[k]| ==> Ordinary(lib, shown[k][i])
    ensures Line(lib, level, message, shown)
            == "level=" + level + " msg=" + Quoted(message) + (" " + ("state" + "=" + Quoted(shown["state"]))
               + (" " + ("attempt" + "=" + Quoted(shown["attempt"]))))
  {
    BodyOfPlain(lib.tables.isPrint, message);
    BodyOfPlain(lib.tables.isPrint, shown["state"]);
    BodyOfPlain(lib.tables.isPrint, shown["attempt"]);
    StateThenAttempt(shown);
    hide KeyOrder, Body;
    TwoPairs(lib, shown, "state", "attempt");
  }

  lemma TwoPairs(lib: Library, shown: Values, k: string, l: string)
    requires k in shown && l in shown
    ensures Pairs(lib, shown, [k, l])
            == " " + (k + "=" + Quote(lib.tables.isPrint, shown[k]))
               + (" " + (l + "=" + Quote(lib.tables.isPrint, shown[l])))
  {
    hide Quote;
    assert [k, l][1..] == [l] && [l][1..] == [];
    var last := " " + FormatField(lib, l, shown[l]);
    assert Pairs(lib, shown, [l]) == last + "" == last;
  }

  predicate Ordinary(lib: Library, c: char) {
    lib.tables.isPrint(c) && c != '"' && c != '\\'
  }

  lemma StateThenAttempt(shown: Values)
    requires shown.Keys == {"state", "attempt"}
    ensures KeyOrder(shown) == ["state", "attempt"]
  {
    assert shown.Keys - (set k | k in ORDERED_KEYS) == {"attempt"};
    OneIncreasingList(Sorted({"attempt"}), ["attempt"]);
    FilterOne(ORDERED_KEYS, shown.Keys, 12);
    hide Filter;
  }

  lemma {:induction false} FilterOne(keys: seq<string>, all: set<string>, i: nat)
    requires i < |keys| && keys[i] in all && forall j :: 0 <= j < |keys| && j != i ==> keys[j] !in all
    ensures Filter(keys, all) == [keys[i]]
    decreases |keys|
  {
    var n := |keys| - 1;
    if i < n {
      FilterOne(keys[..n], all, i);
    } else {
      FilterNone(keys[..n], all);
    }
  }

  lemma {:induction false} FilterNone(keys: seq<string>, all: set<string>)
    requires forall j :: 0 <= j < |keys| ==> keys[j] !in all
    ensures Filter(keys, all) == []
    decreases |keys|
  {
    if keys != [] {
      FilterNone(keys[..|keys| - 1], all);
    }
  }

  /** How `strconv.Quote` writes what it does not print. */
  lemma EscapesByLetter(isPrint: char -> bool)
    requires forall c :: c < ' ' ==> !isPrint(c)
    ensures Escape(isPrint, '"') == ['\\', '"'] && Escape(isPrint, '\\') == ['\\', '\\']
    ensures Escape(isPrint, 7 as char) == "\\a" && Escape(isPrint, 8 as char) == "\\b"
    ensures Escape(isPrint, 12 as char) == "\\f" && Escape(isPrint, 10 as char) == "\\n"
    ensures Escape(isPrint, 13 as char) == "\\r" && Escape(isPrint, 9 as char) == "\\t"
    ensures Escape(isPrint, 11 as char) == "\\v"
  {
    hide Hex;
  }

  /** The others by their number: two digits for controls, four, or eight above 0xFFFF. */
  lemma EscapesByNumber(isPrint: char -> bool, c: char)
    requires !isPrint(c) && c != '"' && c != '\\' && c as int !in {7, 8, 9, 10, 11, 12, 13}
    ensures var n := c as int;
            Escape(isPrint, c) == if n < 32 || n == 127 then "\\x" + Hex(n, 2)
                                  else if n < 0x1_0000 then "\\u" + Hex(n, 4) else "\\U" + Hex(n, 8)
  {
    hide Hex;
  }

  /** Digit i from the right. */
  lemma {:induction false} HexAt(n: nat, digits: nat, i: nat)
    requires i < digits
    ensures Hex(n, digits)[digits - 1 - i] == "0123456789abcdef"[n / Pow16(i) % 16]
    decreases digits
  {
    if i > 0 {
      HexAt(n / 16, digits - 1, i - 1);
      DivideOnce(n, Pow16(i - 1));
    }
  }

  lemma DivideOnce(n: nat, p: nat)
    requires p > 0
    ensures n / 16 / p == n / (16 * p)
  {
    var q, r := n / 16 / p, n / 16 % p;
    assert n / 16 == q * p + r;
    assert n == 16 * (q * p + r) + n % 16;
    assert n == q * (16 * p) + (16 * r + n % 16);
    Quotient(n, 16 * p, q, 16 * r + n % 16);
  }
}
