/** The keys of log fields: `normalizeKey`, and what it means. */
module LogKeys {
  /** What the program takes from the Unicode tables. */
  datatype Tables = Tables(lower: char -> char, isSpace: char -> bool, isPrint: char -> bool) {
    /** What the tables say of the characters a key may hold. */
    ghost predicate Valid() {
      && (forall c :: Letter(c) || c == '_' ==> lower(c) == c && !isSpace(c))
      && !isPrint('\n')
    }
  }

  predicate Letter(c: char) {
    'a' <= c <= 'z' || '0' <= c <= '9'
  }

  predicate Separator(c: char) {
    c == '_' || c == '-' || c == ' '
  }

  function Lower(u: Tables, s: string): (r: string)
    ensures |r| == |s| && forall i :: 0 <= i < |s| ==> r[i] == u.lower(s[i])
  {
    if s == "" then "" else [u.lower(s[0])] + Lower(u, s[1..])
  }

  function TrimLeft(drop: char -> bool, s: string): string {
    if s != "" && drop(s[0]) then TrimLeft(drop, s[1..]) else s
  }

  function TrimRight(drop: char -> bool, s: string): string {
    if s != "" && drop(s[|s| - 1]) then TrimRight(drop, s[..|s| - 1]) else s
  }

  function Trim(drop: char -> bool, s: string): string {
    TrimRight(drop, TrimLeft(drop, s))
  }

  // ---- the meaning: the words of a key ----

  /** The words read so far, and whether the last one may still grow. */
  datatype Words = Words(list: seq<string>, open: bool)

  function Read(w: Words, c: char): (r: Words)
    requires w.open ==> w.list != []
    ensures r.open ==> r.list != []
  {
    if Letter(c) then
      if w.open then Words(w.list[..|w.list| - 1] + [w.list[|w.list| - 1] + [c]], true)
      else Words(w.list + [[c]], true)
    else if Separator(c) then Words(w.list, false)
    else w
  }

  /** Letters and digits make words, separators end them, and anything else is not there at all. */
  function WordsOf(s: string): (r: Words)
    ensures r.open ==> r.list != []
  {
    if s == "" then Words([], false) else Read(WordsOf(s[..|s| - 1]), s[|s| - 1])
  }

  function Join(words: seq<string>, sep: string := "_"): string {
    if words == [] then ""
    else if |words| == 1 then words[0]
    else Join(words[..|words| - 1], sep) + sep + words[|words| - 1]
  }

  predicate Word(w: string) {
    w != "" && forall i :: 0 <= i < |w| ==> Letter(w[i])
  }

  predicate AllWords(words: seq<string>) {
    forall i :: 0 <= i < |words| ==> Word(words[i])
  }

  /** The normal form of a key: its words in lower case, an underscore between them. */
  function Key(u: Tables, key: string): string {
    Join(WordsOf(Lower(u, key)).list)
  }

  lemma {:induction false} WordsAreWords(s: string)
    ensures AllWords(WordsOf(s).list)
  {
    if s != "" {
      WordsAreWords(s[..|s| - 1]);
    }
  }

  lemma WordsMore(s: string, c: char)
    ensures WordsOf(s + [c]) == Read(WordsOf(s), c)
  {
    assert (s + [c])[..|s + [c]| - 1] == s;
  }

  lemma Grow(list: seq<string>, w: string, c: char)
    requires Letter(c)
    ensures Read(Words(list + [w], true), c) == Words(list + [w + [c]], true)
  {
    assert (list + [w])[..|list|] == list;
  }

  /** Reading a word after a separator, or at the start, adds just that word. */
  lemma {:induction false} ReadWord(s: string, w: string)
    requires Word(w) && !WordsOf(s).open
    ensures WordsOf(s + w) == Words(WordsOf(s).list + [w], true)
  {
    var n := |w| - 1;
    var init, list := w[..n], WordsOf(s).list;
    assert w == init + [w[n]];
    WordsMore(s + init, w[n]);
    assert s + w == s + init + [w[n]];
    if n == 0 {
      assert s + init == s && w == [w[0]];
    } else {
      ReadWord(s, init);
      hide Read, WordsOf;
      Grow(list, init, w[n]);
    }
  }

  lemma {:induction false} WordsOfJoin(words: seq<string>)
    requires AllWords(words)
    ensures WordsOf(Join(words)) == Words(words, words != [])
  {
    if words != [] {
      var n := |words| - 1;
      var init := words[..n];
      JoinLast(words);
      if n == 0 {
        ReadWord("", words[0]);
        assert WordsOf("").list == [] && [] + [words[0]] == words;
      } else {
        WordsOfJoin(init);
        hide Join, WordsOf;
        WordsMore(Join(init), '_');
        ReadSeparator(init);
        ReadWord(Join(init) + ['_'], words[n]);
        assert init + [words[n]] == words;
      }
    }
  }

  lemma JoinLast(words: seq<string>)
    requires words != []
    ensures var n := |words| - 1;
            if n == 0 then Join(words) == "" + words[0] else Join(words) == Join(words[..n]) + ['_'] + words[n]
  {
  }

  lemma ReadSeparator(list: seq<string>)
    requires list != []
    ensures Read(Words(list, true), '_') == Words(list, false)
  {
  }

  /** Only lower-case letters, digits and underscores, none of these at the ends or side by side. */
  ghost predicate Normal(k: string) {
    && (forall i :: 0 <= i < |k| ==> Letter(k[i]) || k[i] == '_')
    && (k != "" ==> k[0] != '_' && k[|k| - 1] != '_')
    && (forall i :: 0 < i < |k| ==> !(k[i - 1] == '_' && k[i] == '_'))
  }

  lemma {:induction false} JoinIsNormal(words: seq<string>)
    requires AllWords(words)
    ensures Normal(Join(words)) && (Join(words) == "" <==> words == [])
  {
    if |words| > 1 {
      JoinIsNormal(words[..|words| - 1]);
    }
  }

  lemma KeyIsNormal(u: Tables, key: string)
    ensures Normal(Key(u, key))
  {
    WordsAreWords(Lower(u, key));
    JoinIsNormal(WordsOf(Lower(u, key)).list);
  }

  lemma NormalIsLower(u: Tables, k: string)
    requires u.Valid() && Normal(k)
    ensures Lower(u, k) == k
  {
  }

  /** Normalising twice, as every field's key is, is normalising once. */
  lemma KeyIsIdempotent(u: Tables, key: string)
    requires u.Valid()
    ensures Key(u, Key(u, key)) == Key(u, key)
  {
    KeyIsNormal(u, key);
    NormalIsLower(u, Key(u, key));
    WordsAreWords(Lower(u, key));
    WordsOfJoin(WordsOf(Lower(u, key)).list);
  }

  // ---- the code ----

  lemma {:induction false} WordsOfTrimRight(u: Tables, s: string)
    requires u.Valid()
    ensures WordsOf(TrimRight(u.isSpace, s)).list == WordsOf(s).list
  {
    if s != "" && u.isSpace(s[|s| - 1]) {
      WordsOfTrimRight(u, s[..|s| - 1]);
    }
  }

  lemma {:induction false} WordsOfDropFirst(s: string)
    requires s != "" && !Letter(s[0])
    ensures WordsOf(s[1..]) == WordsOf(s)
  {
    if |s| > 1 {
      var n := |s| - 1;
      WordsOfDropFirst(s[..n]);
      assert s[..n][1..] == s[1..][..n - 1];
    }
  }

  lemma {:induction false} WordsOfTrimLeft(u: Tables, s: string)
    requires u.Valid()
    ensures WordsOf(TrimLeft(u.isSpace, s)) == WordsOf(s)
  {
    if s != "" && u.isSpace(s[0]) {
      WordsOfTrimLeft(u, s[1..]);
      WordsOfDropFirst(s);
    }
  }

  predicate Underscore(c: char) {
    c == '_'
  }

  lemma TrimOneLeft(lead: string, s: string)
    requires lead in {"", "_"} && (s != "" ==> s[0] != '_')
    ensures TrimLeft(Underscore, lead + s) == s
  {
    assert TrimLeft(Underscore, s) == s;
    if lead == "_" {
      assert (lead + s)[1..] == s;
    } else {
      assert lead + s == s;
    }
  }

  lemma TrimOneRight(s: string, tail: string)
    requires tail in {"", "_"} && (s != "" ==> s[|s| - 1] != '_')
    ensures TrimRight(Underscore, s + tail) == s
  {
    assert TrimRight(Underscore, s) == s;
    if tail == "_" {
      var t := s + ['_'];
      assert tail == ['_'] && t[..|t| - 1] == s;
      assert TrimRight(Underscore, t) == TrimRight(Underscore, t[..|t| - 1]);
    } else {
      assert s + tail == s;
    }
  }

  /** Trimming underscores around joined words leaves the words. */
  lemma TrimJoin(words: seq<string>, lead: string, tail: string)
    requires AllWords(words) && lead in {"", "_"} && tail in {"", "_"} && (words == [] ==> tail == "")
    ensures Trim(Underscore, lead + Join(words) + tail) == Join(words)
  {
    JoinIsNormal(words);
    assert lead + Join(words) + tail == lead + (Join(words) + tail);
    TrimOneLeft(lead, Join(words) + tail);
    TrimOneRight(Join(words), tail);
  }

  /** What the builder holds after these words: underscores may stand before the first and after the last. */
  predicate Built(w: Words, lead: string, tail: string, builder: string, lastUnderscore: bool) {
    && (w.open ==> w.list != [])
    && lead in {"", "_"} && tail in {"", "_"} && builder == lead + Join(w.list) + tail
    && (w.list == [] ==> tail == "" && lastUnderscore == (lead == "_"))
    && (w.list != [] ==> lastUnderscore == (tail == "_") == !w.open)
  }

  lemma JoinLetter(w: Words, c: char)
    requires (w.open ==> w.list != []) && Letter(c)
    ensures Join(Read(w, c).list) == Join(w.list) + (if w.open || w.list == [] then "" else "_") + [c]
  {
    var list := Read(w, c).list;
    JoinLast(list);
    if w.open {
      JoinLast(w.list);
      var n := |w.list| - 1;
      assert list[..n] == w.list[..n] && list[n] == w.list[n] + [c];
      hide Join, Read;
    } else {
      assert (w.list + [[c]])[..|w.list|] == w.list;
    }
  }

  lemma BuiltLetter(w: Words, lead: string, tail: string, builder: string, lastUnderscore: bool, c: char)
    requires Built(w, lead, tail, builder, lastUnderscore) && Letter(c)
    ensures Built(Read(w, c), lead, "", builder + [c], false)
  {
    JoinLetter(w, c);
    var before := if w.open || w.list == [] then "" else "_";
    assert before == tail;
    hide Join, Read;
    Glue(lead, Join(w.list), tail, [c]);
  }

  lemma Glue(lead: string, words: string, tail: string, more: string)
    ensures lead + words + tail + more == lead + (words + tail + more) + ""
  {
  }

  lemma BuiltSeparator(w: Words, lead: string, tail: string, builder: string, lastUnderscore: bool, c: char)
    requires Built(w, lead, tail, builder, lastUnderscore)
    ensures Separator(c) && lastUnderscore ==> Built(Read(w, c), lead, tail, builder, true)
    ensures Separator(c) && !lastUnderscore && w.list == [] ==> Built(Read(w, c), "_", tail, builder + "_", true)
    ensures Separator(c) && !lastUnderscore && w.list != [] ==> Built(Read(w, c), lead, "_", builder + "_", true)
    ensures !Letter(c) && !Separator(c) ==> Built(Read(w, c), lead, tail, builder, lastUnderscore)
  {
    assert w.list == [] ==> Join(w.list) == "";
  }

  method NormalizeKey(u: Tables, name: string) returns (r: string)
    requires u.Valid()
    ensures r == Key(u, name)
  {
    var key := Trim(u.isSpace, Lower(u, name));
    KeyOfTrimmed(u, name);
    NothingBuilt();
    hide WordsOf, Built, Read, Join, Trim, Lower, Key;
    if key == "" {
      return "";
    }
    var builder := "";
    var lastUnderscore := false;
    ghost var w := Words([], false);
    ghost var lead, tail := "", "";
    assert key[..0] == "";
    var i := 0;
    while i < |key|
      invariant 0 <= i <= |key| && w == WordsOf(key[..i])
      invariant Built(w, lead, tail, builder, lastUnderscore)
    {
      var c := key[i];
      assert key[..i + 1] == key[..i] + [c];
      WordsMore(key[..i], c);
      BuiltSeparator(w, lead, tail, builder, lastUnderscore, c);
      if Letter(c) {
        BuiltLetter(w, lead, tail, builder, lastUnderscore, c);
        builder := builder + [c];
        tail := "";
        lastUnderscore := false;
      } else if Separator(c) {
        if !lastUnderscore {
          builder := builder + "_";
          if w.list == [] {
            lead := "_";
          } else {
            tail := "_";
          }
          lastUnderscore := true;
        }
      }
      w := Read(w, c);
      i := i + 1;
    }
    assert key[..i] == key;
    r := Trim(Underscore, builder);
    BuiltKey(key, lead, tail, builder, lastUnderscore);
  }

  lemma KeyOfTrimmed(u: Tables, name: string)
    requires u.Valid()
    ensures var key := Trim(u.isSpace, Lower(u, name));
            Key(u, name) == Join(WordsOf(key).list) && (key == "" ==> Key(u, name) == "")
  {
    WordsOfTrimLeft(u, Lower(u, name));
    WordsOfTrimRight(u, TrimLeft(u.isSpace, Lower(u, name)));
    hide TrimLeft, TrimRight, Lower;
  }

  lemma NothingBuilt()
    ensures WordsOf("") == Words([], false) && Built(Words([], false), "", "", "", false)
  {
  }

  lemma BuiltKey(key: string, lead: string, tail: string, builder: string, lastUnderscore: bool)
    requires Built(WordsOf(key), lead, tail, builder, lastUnderscore)
    ensures Trim(Underscore, builder) == Join(WordsOf(key).list)
  {
    WordsAreWords(key);
    hide WordsOf, Trim, Join;
    TrimJoin(WordsOf(key).list, lead, tail);
  }
}

/** The line `RuntimeLogger.log` prints, timestamp aside. */
module LogLine {
  import opened LogKeys
  import opened Options
  import opened Quoting
  import opened StringOrder

  datatype Field = Field(key: string, value: string)

  /** The Unicode tables and the redaction patterns. */
  datatype Library = Library(tables: Tables, redactPatterns: string -> string)

  const REDACTED := "[REDACTED]"

  const ORDERED_KEYS: seq<string> := [
    "component", "event", "operation", "request_id", "trace_id", "span_id", "trace_flags", "method", "path",
    "status_code", "duration_ms", "address", "state", "error_type", "exception_recorded", "error", "source"]

  const SENSITIVE_FRAGMENTS: seq<string> := [
    "password", "passwd", "pwd", "token", "secret", "apikey", "authorization", "cookie", "setcookie"]

  function Redact(lib: Library, s: string): string {
    if s == "" then "" else lib.redactPatterns(s)
  }

  function Contains(s: string, part: string): bool {
    exists i :: 0 <= i <= |s| && part <= s[i..]
  }

  function WithoutUnderscores(s: string): string {
    if s == "" then "" else (if s[0] == '_' then "" else [s[0]]) + WithoutUnderscores(s[1..])
  }

  predicate Sensitive(u: Tables, key: string) {
    exists i :: 0 <= i < |SENSITIVE_FRAGMENTS| && Contains(WithoutUnderscores(Key(u, key)), SENSITIVE_FRAGMENTS[i])
  }

  function Sanitize(lib: Library, key: string, value: string): string {
    if Sensitive(lib.tables, key) then REDACTED else Redact(lib, Trim(lib.tables.isSpace, value))
  }

  type Values = map<string, string>

  /** A field with no key left is dropped; among equal keys the last wins. */
  function Add(lib: Library, values: Values, f: Field): Values {
    var key := Key(lib.tables, f.key);
    if key == "" then values else values[key := Sanitize(lib, key, f.value)]
  }

  function AddAll(lib: Library, values: Values, fields: seq<Field>): Values {
    if fields == [] then values
    else Add(lib, AddAll(lib, values, fields[..|fields| - 1]), fields[|fields| - 1])
  }

  function WithComponent(lib: Library, component: string): Values {
    var c := Redact(lib, Trim(lib.tables.isSpace, component));
    if c == "" then map[] else map["component" := c]
  }

  /** All fields of a call: the component first, the caller's position last. */
  function Collect(lib: Library, component: string, fields: seq<Field>, source: Option<string>): Values {
    var values := AddAll(lib, WithComponent(lib, component), fields);
    if source.Some? then values["source" := source.value] else values
  }

  /** Fields without a value are not shown. */
  function Shown(values: Values): Values {
    map k | k in values && values[k] != "" :: values[k]
  }

  function Filter(keys: seq<string>, all: set<string>): (r: seq<string>)
    ensures forall x :: x in r <==> x in keys && x in all
  {
    if keys == [] then []
    else Filter(keys[..|keys| - 1], all) + (if keys[|keys| - 1] in all then [keys[|keys| - 1]] else [])
  }

  /** The order of the keys: the known ones in their fixed order, then the others sorted. */
  ghost function KeyOrder(shown: Values): seq<string> {
    Filter(ORDERED_KEYS, shown.Keys) + Sorted(shown.Keys - (set k | k in ORDERED_KEYS))
  }

  function FormatField(lib: Library, key: string, value: string): string {
    key + "=" + Quote(lib.tables.isPrint, value)
  }

  function Pairs(lib: Library, shown: Values, keys: seq<string>): string
    requires forall k :: k in keys ==> k in shown
  {
    if keys == [] then ""
    else " " + FormatField(lib, keys[0], shown[keys[0]]) + Pairs(lib, shown, keys[1..])
  }

  ghost function Line(lib: Library, level: string, message: string, shown: Values): string {
    KeysOnce(shown);
    "level=" + level + " msg=" + Quote(lib.tables.isPrint, message) + Pairs(lib, shown, KeyOrder(shown))
  }

  lemma {:induction false} FilterIsDistinct(keys: seq<string>, all: set<string>)
    requires Distinct(keys)
    ensures Distinct(Filter(keys, all))
  {
    if keys != [] {
      FilterIsDistinct(keys[..|keys| - 1], all);
    }
  }

  lemma OrderedKeysAreDistinct()
    ensures Distinct(ORDERED_KEYS)
  {
  }

  /** Every shown key stands in the line exactly once. */
  lemma KeysOnce(shown: Values)
    ensures Distinct(KeyOrder(shown)) && Lists(KeyOrder(shown), shown.Keys)
  {
    OrderedKeysAreDistinct();
    FilterIsDistinct(ORDERED_KEYS, shown.Keys);
    hide ORDERED_KEYS, Filter;
    var known, extra := Filter(ORDERED_KEYS, shown.Keys), Sorted(shown.Keys - (set k | k in ORDERED_KEYS));
    assert forall i :: 0 <= i < |known| ==> known[i] in known;
    assert forall i :: 0 <= i < |extra| ==> extra[i] in extra;
  }

  // ---- the line is unambiguous ----

  predicate Without(s: string, c: char) {
    forall i :: 0 <= i < |s| ==> s[i] != c
  }

  lemma SplitAt(a: string, x: string, b: string, y: string, c: char)
    requires Without(a, c) && Without(b, c) && a + [c] + x == b + [c] + y
    ensures a == b && x == y
  {
    var s, t := a + [c] + x, b + [c] + y;
    assert forall i :: 0 <= i < |a| ==> s[i] != c;
    assert forall i :: 0 <= i < |b| ==> t[i] != c;
    assert s[|a|] == c && t[|b|] == c;
    assert a == s[..|a|] && b == t[..|b|] && x == s[|a| + 1..] && y == t[|b| + 1..];
  }

  ghost predicate KeysWithoutEquals(m: Values) {
    forall k :: k in m ==> Without(k, '=')
  }

  lemma PairsUnfold(lib: Library, m: Values, keys: seq<string>)
    requires keys != [] && forall k :: k in keys ==> k in m
    ensures Pairs(lib, m, keys)
            == " " + (keys[0] + ['='] + (Quote(lib.tables.isPrint, m[keys[0]]) + Pairs(lib, m, keys[1..])))
  {
  }

  lemma {:induction false} PairsAreUnambiguous(lib: Library, m: Values, ks: seq<string>, n: Values, js: seq<string>)
    requires KeysWithoutEquals(m) && KeysWithoutEquals(n)
    requires (forall k :: k in ks ==> k in m) && (forall k :: k in js ==> k in n)
    requires Pairs(lib, m, ks) == Pairs(lib, n, js)
    ensures ks == js && forall k :: k in ks ==> m[k] == n[k]
    decreases ks
  {
    if ks != [] && js != [] {
      PairsUnfold(lib, m, ks);
      PairsUnfold(lib, n, js);
      var p := lib.tables.isPrint;
      var x, y := Quote(p, m[ks[0]]) + Pairs(lib, m, ks[1..]), Quote(p, n[js[0]]) + Pairs(lib, n, js[1..]);
      assert ks[0] + ['='] + x == Pairs(lib, m, ks)[1..] && js[0] + ['='] + y == Pairs(lib, n, js)[1..];
      SplitAt(ks[0], x, js[0], y, '=');
      QuoteIsSelfDelimiting(p, m[ks[0]], Pairs(lib, m, ks[1..]), n[js[0]], Pairs(lib, n, js[1..]));
      PairsAreUnambiguous(lib, m, ks[1..], n, js[1..]);
      assert ks == [ks[0]] + ks[1..] && js == [js[0]] + js[1..];
    }
  }

  /** Two lines are the same exactly when level, message and shown fields are. */
  lemma LineIsUnambiguous(lib: Library, level: string, message: string, m: Values,
                          level': string, message': string, m': Values)
    requires Without(level, ' ') && Without(level', ' ') && KeysWithoutEquals(m) && KeysWithoutEquals(m')
    ensures Line(lib, level, message, m) == Line(lib, level', message', m')
            <==> level == level' && message == message' && m == m'
  {
    hide KeyOrder, Quote, Pairs, Line, Without, KeysWithoutEquals;
    if Line(lib, level, message, m) == Line(lib, level', message', m') {
      KeysOnce(m);
      KeysOnce(m');
      LineSplits(lib, level, message, m);
      LineSplits(lib, level', message', m');
      var p := lib.tables.isPrint;
      var ks, ks' := KeyOrder(m), KeyOrder(m');
      var x, x' := Quote(p, message) + Pairs(lib, m, ks), Quote(p, message') + Pairs(lib, m', ks');
      SplitAt(level, "msg=" + x, level', "msg=" + x', ' ');
      assert x == ("msg=" + x)[4..] && x' == ("msg=" + x')[4..];
      QuoteIsSelfDelimiting(p, message, Pairs(lib, m, ks), message', Pairs(lib, m', ks'));
      PairsAreUnambiguous(lib, m, ks, m', ks');
      assert m.Keys == m'.Keys;
    }
  }

  lemma LineSplits(lib: Library, level: string, message: string, m: Values)
    ensures forall k :: k in KeyOrder(m) ==> k in m
    ensures var x := Quote(lib.tables.isPrint, message) + Pairs(lib, m, KeyOrder(m));
            Line(lib, level, message, m)[6..] == level + [' '] + ("msg=" + x)
  {
    KeysOnce(m);
    hide KeyOrder, Quote, Pairs;
  }

  // ---- what a call collects ----

  ghost predicate NormalKeys(m: Values) {
    forall k :: k in m ==> k != "" && Normal(k)
  }

  lemma {:induction false} AddAllKeys(lib: Library, values: Values, fields: seq<Field>)
    requires NormalKeys(values)
    ensures NormalKeys(AddAll(lib, values, fields))
  {
    if fields != [] {
      AddAllKeys(lib, values, fields[..|fields| - 1]);
      KeyIsNormal(lib.tables, fields[|fields| - 1].key);
    }
  }

  lemma ConstantsAreNormal()
    ensures Normal("component") && Normal("source")
  {
  }

  lemma NormalHasNoEquals(k: string)
    requires Normal(k)
    ensures Without(k, '=')
  {
  }

  /** Collected keys are in normal form, so none holds a quote, a space or an equals sign. */
  lemma CollectedKeys(lib: Library, component: string, fields: seq<Field>, source: Option<string>)
    ensures NormalKeys(Shown(Collect(lib, component, fields, source)))
    ensures KeysWithoutEquals(Shown(Collect(lib, component, fields, source)))
  {
    ConstantsAreNormal();
    hide Normal;
    AddAllKeys(lib, WithComponent(lib, component), fields);
    var m := Shown(Collect(lib, component, fields, source));
    forall k | k in m
      ensures Without(k, '=')
    {
      NormalHasNoEquals(k);
    }
  }

  /** No two of the fields have the same key after normalising, those without a key aside. */
  ghost predicate DistinctKeys(u: Tables, fields: seq<Field>) {
    forall i, j :: 0 <= i < j < |fields| && Key(u, fields[i].key) != "" ==>
      Key(u, fields[i].key) != Key(u, fields[j].key)
  }

  ghost predicate Has(lib: Library, fields: seq<Field>, k: string, v: string) {
    exists i :: 0 <= i < |fields| && Key(lib.tables, fields[i].key) == k && Sanitize(lib, k, fields[i].value) == v
  }

  ghost predicate HasKey(u: Tables, fields: seq<Field>, k: string) {
    exists i :: 0 <= i < |fields| && Key(u, fields[i].key) == k
  }

  lemma {:induction false} AddAllIs(lib: Library, values: Values, fields: seq<Field>, k: string)
    requires DistinctKeys(lib.tables, fields)
    ensures var all := AddAll(lib, values, fields);
            if k != "" && HasKey(lib.tables, fields, k) then k in all && Has(lib, fields, k, all[k])
            else (k in all <==> k in values) && (k in all ==> all[k] == values[k])
  {
    hide Key, Sanitize;
    if fields != [] {
      var n := |fields| - 1;
      AddAllIs(lib, values, fields[..n], k);
    }
  }

  lemma TwiceIsTwoPlaces<T>(s: seq<T>, x: T) returns (i: nat, j: nat)
    requires multiset(s)[x] >= 2
    ensures i < j < |s| && s[i] == s[j] == x
  {
    var init := s[..|s| - 1];
    assert s == init + [s[|s| - 1]];
    assert x in s;
    if s[|s| - 1] == x {
      assert multiset(init)[x] >= 1;
      assert x in init;
      i :| 0 <= i < |init| && init[i] == x;
      j := |s| - 1;
    } else {
      i, j := TwiceIsTwoPlaces(init, x);
    }
  }

  lemma DistinctKeysPermute(u: Tables, fields: seq<Field>, other: seq<Field>)
    requires multiset(fields) == multiset(other) && DistinctKeys(u, fields)
    ensures DistinctKeys(u, other)
  {
    hide Key;
    forall i, j | 0 <= i < j < |other| && Key(u, other[i].key) != ""
      ensures Key(u, other[i].key) != Key(u, other[j].key)
    {
      if other[i] == other[j] {
        PlacesCount(other, i, j);
        var a, b := TwiceIsTwoPlaces(fields, other[i]);
      } else {
        assert other[i] in multiset(fields) && other[j] in multiset(fields);
      }
    }
  }

  lemma PlacesCount<T>(s: seq<T>, i: nat, j: nat)
    requires i < j < |s| && s[i] == s[j]
    ensures multiset(s)[s[i]] >= 2
  {
    assert s == s[..j] + s[j..];
    assert s[i] in s[..j] && s[j] in s[j..];
  }

  /** Fields with different keys may come in any order. */
  lemma OrderDoesNotMatter(lib: Library, component: string, fields: seq<Field>, other: seq<Field>,
                           source: Option<string>)
    requires multiset(fields) == multiset(other) && DistinctKeys(lib.tables, fields)
    ensures Collect(lib, component, fields, source) == Collect(lib, component, other, source)
  {
    DistinctKeysPermute(lib.tables, fields, other);
    var base := WithComponent(lib, component);
    forall k
      ensures k in AddAll(lib, base, fields) <==> k in AddAll(lib, base, other)
      ensures k in AddAll(lib, base, fields) ==> AddAll(lib, base, fields)[k] == AddAll(lib, base, other)[k]
    {
      AddAllIs(lib, base, fields, k);
      AddAllIs(lib, base, other, k);
      SameFields(lib, fields, other, k);
    }
    assert AddAll(lib, base, fields) == AddAll(lib, base, other);
  }

  lemma SameFields(lib: Library, fields: seq<Field>, other: seq<Field>, k: string)
    requires multiset(fields) == multiset(other) && DistinctKeys(lib.tables, fields)
    ensures HasKey(lib.tables, fields, k) <==> HasKey(lib.tables, other, k)
    ensures forall v, v' :: k != "" && Has(lib, fields, k, v) && Has(lib, other, k, v') ==> v == v'
  {
    hide Key, Sanitize;
    forall i | 0 <= i < |fields|
      ensures fields[i] in other
    {
      assert fields[i] in multiset(fields) && fields[i] in multiset(other);
    }
    forall i | 0 <= i < |other|
      ensures other[i] in fields
    {
      assert other[i] in multiset(other) && other[i] in multiset(fields);
    }
  }

  lemma {:induction false} SensitiveIsRedacted(lib: Library, values: Values, fields: seq<Field>, k: string)
    requires k in values ==> values[k] == REDACTED
    requires Sensitive(lib.tables, k)
    ensures k in AddAll(lib, values, fields) ==> AddAll(lib, values, fields)[k] == REDACTED
  {
    if fields != [] {
      SensitiveIsRedacted(lib, values, fields[..|fields| - 1], k);
    }
  }

  /** Whatever was passed under a sensitive key, its value is not shown. */
  lemma SensitiveValuesAreHidden(lib: Library, component: string, fields: seq<Field>, source: Option<string>, k: string)
    requires Sensitive(lib.tables, k) && k != "component" && k != "source"
    ensures var m := Collect(lib, component, fields, source); k in m ==> m[k] == REDACTED
  {
    hide Sensitive;
    SensitiveIsRedacted(lib, WithComponent(lib, component), fields, k);
  }

  /** The line of two calls is the same exactly when they agree on level, message and shown fields. */
  lemma CallsAreUnambiguous(lib: Library, level: string, message: string, component: string, fields: seq<Field>,
                            source: Option<string>, level': string, message': string, component': string,
                            fields': seq<Field>, source': Option<string>)
    requires Without(level, ' ') && Without(level', ' ')
    ensures var m := Shown(Collect(lib, component, fields, source));
            var m' := Shown(Collect(lib, component', fields', source'));
            Line(lib, level, message, m) == Line(lib, level', message', m')
            <==> level == level' && message == message' && m == m'
  {
    CollectedKeys(lib, component, fields, source);
    CollectedKeys(lib, component', fields', source');
    hide *;
    LineIsUnambiguous(lib, level, message, Shown(Collect(lib, component, fields, source)),
                      level', message', Shown(Collect(lib, component', fields', source')));
  }

  // ---- one call, one line ----

  lemma QuoteStaysOnLine(lib: Library, s: string)
    requires lib.tables.Valid()
    ensures Without(Quote(lib.tables.isPrint, s), '\n')
  {
    BodyIsPrintable(lib.tables.isPrint, s);
    var body := Body(lib.tables.isPrint, s);
    hide Body;
    assert forall i :: 0 <= i < |body| ==> body[i] != '\n';
  }

  lemma {:induction false} PairsStayOnLine(lib: Library, m: Values, keys: seq<string>)
    requires lib.tables.Valid() && (forall k :: k in keys ==> k in m) && NormalKeys(m)
    ensures Without(Pairs(lib, m, keys), '\n')
  {
    if keys != [] {
      PairsStayOnLine(lib, m, keys[1..]);
      QuoteStaysOnLine(lib, m[keys[0]]);
      assert Normal(keys[0]);
      hide Quote;
    }
  }

  /** Nothing a caller passes can break the line in two. */
  lemma LineStaysOnLine(lib: Library, level: string, message: string, component: string, fields: seq<Field>,
                        source: Option<string>)
    requires lib.tables.Valid() && Without(level, '\n')
    ensures Without(Line(lib, level, message, Shown(Collect(lib, component, fields, source))), '\n')
  {
    var m := Shown(Collect(lib, component, fields, source));
    CollectedKeys(lib, component, fields, source);
    KeysOnce(m);
    hide KeyOrder, Quote, Pairs, Collect;
    PairsStayOnLine(lib, m, KeyOrder(m));
    QuoteStaysOnLine(lib, message);
  }

  // ---- the code ----

  /** The parts of a line: level, message, and the formatted fields in the order of `keys`. */
  function Parts(lib: Library, level: string, message: string, m: Values, keys: seq<string>): (r: seq<string>)
    requires forall k :: k in keys ==> k in m
    ensures r != []
  {
    if keys == [] then ["level=" + level, "msg=" + Quote(lib.tables.isPrint, message)]
    else Parts(lib, level, message, m, keys[..|keys| - 1]) + [FormatField(lib, keys[|keys| - 1], m[keys[|keys| - 1]])]
  }

  lemma PartsMore(lib: Library, level: string, message: string, m: Values, keys: seq<string>, k: string)
    requires k in m && forall x :: x in keys ==> x in m
    ensures forall x :: x in keys + [k] ==> x in m
    ensures Parts(lib, level, message, m, keys + [k])
            == Parts(lib, level, message, m, keys) + [FormatField(lib, k, m[k])]
  {
    assert (keys + [k])[..|keys + [k]| - 1] == keys;
  }

  lemma {:induction false} PairsMore(lib: Library, m: Values, keys: seq<string>, k: string)
    requires k in m && forall x :: x in keys ==> x in m
    ensures Pairs(lib, m, keys + [k]) == Pairs(lib, m, keys) + " " + FormatField(lib, k, m[k])
  {
    hide FormatField;
    if keys == [] {
      assert keys + [k] == [k];
    } else {
      assert (keys + [k])[1..] == keys[1..] + [k];
      PairsMore(lib, m, keys[1..], k);
    }
  }

  lemma JoinMore(parts: seq<string>, part: string, sep: string)
    requires parts != []
    ensures Join(parts + [part], sep) == Join(parts, sep) + sep + part
  {
    assert (parts + [part])[..|parts|] == parts;
  }

  lemma Regroup(a: string, b: string, c: string, d: string)
    ensures a + b + c + d == a + (b + c + d)
  {
  }

  /** Joining the parts with spaces is printing the pairs after level and message. */
  lemma {:induction false} JoinIsPairs(lib: Library, level: string, message: string, m: Values, keys: seq<string>)
    requires forall k :: k in keys ==> k in m
    ensures Join(Parts(lib, level, message, m, keys), " ")
            == "level=" + level + " msg=" + Quote(lib.tables.isPrint, message) + Pairs(lib, m, keys)
  {
    hide Quote, FormatField;
    var a, q := "level=" + level, Quote(lib.tables.isPrint, message);
    if keys == [] {
      JoinMore([a], "msg=" + q, " ");
      assert [a] + ["msg=" + q] == [a, "msg=" + q];
      assert a + " " + ("msg=" + q) == a + " msg=" + q + "";
    } else {
      var init, last := keys[..|keys| - 1], keys[|keys| - 1];
      assert keys == init + [last];
      JoinIsPairs(lib, level, message, m, init);
      PairsMore(lib, m, init, last);
      PartsMore(lib, level, message, m, init, last);
      JoinMore(Parts(lib, level, message, m, init), FormatField(lib, last, m[last]), " ");
      hide *;
      Regroup(a + " msg=" + q, Pairs(lib, m, init), " ", FormatField(lib, last, m[last]));
    }
  }

  class RuntimeLogger {
    const lib: Library
    /** What has gone to the sink, without the time in front. */
    var lines: seq<string>

    constructor (lib: Library)
      ensures this.lib == lib && lines == []
    {
      this.lib := lib;
      lines := [];
    }

    method Log(level: string, component: string, message: string, fields: seq<Field>, source: Option<string>)
      requires lib.tables.Valid()
      modifies this`lines
      ensures lines == old(lines)
                       + [Line(lib, level, Redact(lib, Trim(lib.tables.isSpace, message)),
                               Shown(Collect(lib, component, fields, source)))]
    {
      var values := CollectValues(component, fields, source);
      var text := Redact(lib, Trim(lib.tables.isSpace, message));
      var parts := FormatParts(level, text, values, ORDERED_KEYS);
      KeysOnce(Shown(values));
      JoinIsPairs(lib, level, text, Shown(values), KeyOrder(Shown(values)));
      hide Quote, Pairs, Join, Parts, Shown, Collect, Redact, Trim;
      lines := lines + [Join(parts, " ")];
    }

    /** The loop over the fields. */
    method CollectValues(component: string, fields: seq<Field>, source: Option<string>) returns (values: Values)
      requires lib.tables.Valid()
      ensures values == Collect(lib, component, fields, source)
    {
      values := map[];
      var c := Redact(lib, Trim(lib.tables.isSpace, component));
      if c != "" {
        values := values["component" := c];
      }
      var i := 0;
      while i < |fields|
        invariant 0 <= i <= |fields|
        invariant values == AddAll(lib, WithComponent(lib, component), fields[..i])
      {
        assert fields[..i + 1][..i] == fields[..i];
        var key := NormalizeKey(lib.tables, fields[i].key);
        hide Key, Sanitize, AddAll;
        if key != "" {
          values := values[key := Sanitize(lib, key, fields[i].value)];
        }
        AddMore(lib, WithComponent(lib, component), fields, i);
        i := i + 1;
      }
      assert fields[..i] == fields;
      if source.Some? {
        values := values["source" := source.value];
      }
    }

    /** The known keys in their order, then the others sorted. */
    method FormatParts(level: string, text: string, values: Values, ordered: seq<string>) returns (parts: seq<string>)
      ensures var keys := Filter(ordered, Shown(values).Keys) + Sorted(Shown(values).Keys - (set k | k in ordered));
              (forall k :: k in keys ==> k in Shown(values)) && parts == Parts(lib, level, text, Shown(values), keys)
    {
      var used;
      parts, used := FormatKnown(level, text, values, ordered);
      var extra := ExtraKeys(values, used);
      assert Shown(values).Keys - used == Shown(values).Keys - (set k | k in ordered);
      hide Filter, Shown, Parts, Increasing;
      parts := FormatExtra(level, text, values, parts, Filter(ordered, Shown(values).Keys), extra);
    }

    method FormatExtra(level: string, text: string, values: Values, parts0: seq<string>, ghost known: seq<string>,
                       extra: seq<string>) returns (parts: seq<string>)
      requires (forall k :: k in known ==> k in Shown(values)) && (forall k :: k in extra ==> k in Shown(values))
      requires parts0 == Parts(lib, level, text, Shown(values), known)
      ensures parts == Parts(lib, level, text, Shown(values), known + extra)
    {
      ghost var shown := Shown(values);
      hide *;
      parts := parts0;
      ghost var keys := known;
      assert known + extra[..0] == known;
      for j := 0 to |extra|
        invariant keys == known + extra[..j] && (forall k :: k in keys ==> k in shown)
        invariant parts == Parts(lib, level, text, shown, keys)
      {
        assert extra[j] in extra && known + extra[..j] + [extra[j]] == known + extra[..j + 1];
        IsShown(values, extra[j]);
        PartsMore(lib, level, text, shown, keys, extra[j]);
        parts := parts + [FormatField(lib, extra[j], values[extra[j]])];
        keys := keys + [extra[j]];
      }
      assert extra[..|extra|] == extra;
    }

    method FormatKnown(level: string, text: string, values: Values, ordered: seq<string>)
      returns (parts: seq<string>, used: set<string>)
      ensures var known := Filter(ordered, Shown(values).Keys);
              parts == Parts(lib, level, text, Shown(values), known) && forall k :: k in used <==> k in known
    {
      hide Shown, Filter, FormatField, Quote;
      ghost var shown := Shown(values);
      ghost var keys: seq<string> := [];
      NothingKnown(lib, level, text, values, ordered);
      hide Parts;
      parts := ["level=" + level, "msg=" + Quote(lib.tables.isPrint, text)];
      used := {};
      var i := 0;
      while i < |ordered|
        invariant 0 <= i <= |ordered| && keys == Filter(ordered[..i], shown.Keys)
        invariant forall k :: k in used <==> k in keys
        invariant parts == Parts(lib, level, text, shown, keys)
      {
        var key := ordered[i];
        FilterMore(ordered, i, shown.Keys);
        IsShown(values, key);
        if key in values && values[key] != "" {
          PartsMore(lib, level, text, shown, keys, key);
          parts := parts + [FormatField(lib, key, values[key])];
          keys := keys + [key];
          used := used + {key};
        }
        i := i + 1;
      }
      assert ordered[..i] == ordered;
    }

    method ExtraKeys(values: Values, used: set<string>) returns (extra: seq<string>)
      ensures extra == Sorted(Shown(values).Keys - used)
    {
      extra := [];
      var keys := values.Keys;
      while keys != {}
        invariant keys <= values.Keys
        invariant Distinct(extra) && Lists(extra, Shown(values).Keys - used - keys)
        decreases |keys|
      {
        var key :| key in keys;
        if values[key] != "" && key !in used {
          extra := extra + [key];
        }
        keys := keys - {key};
      }
      assert Shown(values).Keys - used - keys == Shown(values).Keys - used;
      SortOfListing(extra, Shown(values).Keys - used);
      extra := Sort(extra);
    }
  }

  lemma IsShown(values: Values, k: string)
    ensures k in Shown(values) <==> k in values && values[k] != ""
    ensures k in Shown(values) ==> Shown(values)[k] == values[k]
  {
  }

  lemma AddMore(lib: Library, values: Values, fields: seq<Field>, i: nat)
    requires i < |fields|
    ensures AddAll(lib, values, fields[..i + 1]) == Add(lib, AddAll(lib, values, fields[..i]), fields[i])
  {
    assert fields[..i + 1][..i] == fields[..i];
  }

  lemma NothingKnown(lib: Library, level: string, text: string, values: Values, ordered: seq<string>)
    ensures Filter(ordered[..0], Shown(values).Keys) == []
    ensures Parts(lib, level, text, Shown(values), []) == ["level=" + level, "msg=" + Quote(lib.tables.isPrint, text)]
  {
    hide Shown, Quote;
  }

  lemma FilterMore(keys: seq<string>, i: nat, all: set<string>)
    requires i < |keys|
    ensures Filter(keys[..i + 1], all) == Filter(keys[..i], all) + (if keys[i] in all then [keys[i]] else [])
  {
    assert keys[..i + 1][..i] == keys[..i];
  }
}
