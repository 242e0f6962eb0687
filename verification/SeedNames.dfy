/** The names of load-test fixtures, and the patterns that find them again. */
module SeedNames {
  import opened Arithmetic

  predicate Lower(c: char) {
    'a' <= c <= 'z'
  }

  predicate Digit(c: char) {
    '0' <= c <= '9'
  }

  /** `validatePrefix`: a lower-case letter, then lower-case letters and digits. */
  predicate ValidPrefix(prefix: string) {
    prefix != "" && Lower(prefix[0]) && forall i :: 0 <= i < |prefix| ==> Lower(prefix[i]) || Digit(prefix[i])
  }

  /** SQL `LIKE`: `%` stands for any string, `_` for any character, and a backslash takes the next literally. */
  predicate Like(s: string, pattern: string)
    decreases |pattern|, |s|
  {
    if pattern == "" then s == ""
    else if pattern[0] == '%' then Like(s, pattern[1..]) || (s != "" && Like(s[1..], pattern))
    else if pattern[0] == '\\' && |pattern| > 1 then s != "" && s[0] == pattern[1] && Like(s[1..], pattern[2..])
    else s != "" && (pattern[0] == '_' || s[0] == pattern[0]) && Like(s[1..], pattern[1..])
  }

  lemma {:induction false} AnythingIsLikePercent(s: string)
    ensures Like(s, "%")
  {
    assert "%"[1..] == "";
    if s != "" {
      AnythingIsLikePercent(s[1..]);
    }
  }

  /** A validated prefix holds no wildcard, so the pattern finds exactly the names that start with it. */
  lemma {:induction false} LikePrefix(s: string, prefix: string)
    requires forall i :: 0 <= i < |prefix| ==> Lower(prefix[i]) || Digit(prefix[i])
    ensures Like(s, prefix + "%") <==> prefix <= s
    decreases prefix
  {
    if prefix == "" {
      assert prefix + "%" == "%";
      AnythingIsLikePercent(s);
    } else {
      var pattern := prefix + "%";
      assert pattern[1..] == prefix[1..] + "%";
      if s != "" {
        LikePrefix(s[1..], prefix[1..]);
        assert prefix <= s <==> s[0] == prefix[0] && prefix[1..] <= s[1..] by {
          assert prefix == [prefix[0]] + prefix[1..] && s == [s[0]] + s[1..];
        }
      }
    }
  }

  /** A number in so many decimal digits. */
  function Decimal(n: nat, digits: nat): (r: string)
    ensures |r| == digits
  {
    if digits == 0 then "" else Decimal(n / 10, digits - 1) + [(n % 10 + 48) as char]
  }

  lemma {:induction false} DecimalIsInjective(m: nat, n: nat, digits: nat)
    requires m < Pow10(digits) && n < Pow10(digits) && Decimal(m, digits) == Decimal(n, digits)
    ensures m == n
  {
    if digits > 0 {
      var a, b := Decimal(m, digits), Decimal(n, digits);
      assert a[..digits - 1] == Decimal(m / 10, digits - 1) && b[..digits - 1] == Decimal(n / 10, digits - 1);
      assert a[digits - 1] == (m % 10 + 48) as char && b[digits - 1] == (n % 10 + 48) as char;
      DecimalIsInjective(m / 10, n / 10, digits - 1);
    }
  }

  /** `%s%06d`. */
  function Name(prefix: string, i: nat): string {
    prefix + Decimal(i, 6)
  }

  lemma MillionIsSixDigits()
    ensures Pow10(6) == 1_000_000
  {
    assert Pow10(2) == 100 && Pow10(4) == 10_000;
  }

  /** Different prefixes never make the same name, even when one prefix continues another. */
  lemma NamesAreInjective(p: string, i: nat, q: string, j: nat)
    requires i < 1_000_000 && j < 1_000_000 && Name(p, i) == Name(q, j)
    ensures p == q && i == j
  {
    assert |Name(p, i)| == |p| + 6 && |Name(q, j)| == |q| + 6;
    assert p == Name(p, i)[..|p|] && q == Name(q, j)[..|q|];
    assert Decimal(i, 6) == Name(p, i)[|p|..] && Decimal(j, 6) == Name(q, j)[|q|..];
    MillionIsSixDigits();
    DecimalIsInjective(i, j, 6);
  }

  lemma FirstNumber()
    ensures Decimal(1, 6) == "000001"
  {
    assert Decimal(0, 2) == "00" && Decimal(0, 4) == "0000" && Decimal(0, 5) == "00000" by {
      assert Decimal(0, 1) == "0" && Decimal(0, 3) == "000";
    }
    assert Decimal(1, 6) == Decimal(0, 5) + ['1'];
    assert "00000" + ['1'] == "000001";
  }

  datatype Config = Config(
    enabled: bool, production: bool, allowProduction: bool, reset: bool,
    userCount: nat, moderatorCount: nat, marketCount: nat, hotMarketCount: nat,
    userPrefix: string, moderatorPrefix: string, passwordLength: nat, balance: int)
  {
    /** The bounds `loadConfig` enforces. */
    predicate InBounds() {
      && 1 <= userCount <= 50_000 && 1 <= moderatorCount <= 10_000 && 1 <= marketCount <= 50_000
      && hotMarketCount <= marketCount
    }

    /** `validateSafety`. */
    predicate Safe() {
      && enabled && (production ==> allowProduction)
      && ValidPrefix(userPrefix) && ValidPrefix(moderatorPrefix) && userPrefix != moderatorPrefix
      && passwordLength >= 8
    }
  }

  /** What is refused: without the switch, in production without the second one, with a wildcard in a prefix,
      with equal prefixes, or with a short password. */
  lemma RefusedConfigs(cfg: Config)
    ensures !cfg.enabled || (cfg.production && !cfg.allowProduction) || cfg.passwordLength < 8 ==> !cfg.Safe()
    ensures cfg.userPrefix == cfg.moderatorPrefix || cfg.userPrefix == "" || cfg.moderatorPrefix == "" ==> !cfg.Safe()
    ensures forall c :: c in {'%', '_', '\\', ' '} && (c in cfg.userPrefix || c in cfg.moderatorPrefix) ==> !cfg.Safe()
  {
    forall c | c in {'%', '_', '\\', ' '} && (c in cfg.userPrefix || c in cfg.moderatorPrefix)
      ensures !cfg.Safe()
    {
      if c in cfg.userPrefix {
        var i :| 0 <= i < |cfg.userPrefix| && cfg.userPrefix[i] == c;
      } else {
        var i :| 0 <= i < |cfg.moderatorPrefix| && cfg.moderatorPrefix[i] == c;
      }
    }
  }
}
