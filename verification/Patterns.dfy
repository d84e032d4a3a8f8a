/** Escaping of user text in search patterns and SQL literals
    (common/metadata_es_filter.py, common/metadata_gaussdb_filter.py,
    common/metadata_infinity_filter.py) against a matcher for such patterns: one
    metacharacter for any run of characters, one for a single character, and a
    backslash that makes the next character literal.  That is the Elasticsearch wildcard
    language (`*`, `?`) and LIKE with ESCAPE, section 8.5 of ISO/IEC 9075:1992
    (`%`, `_`). */
module Patterns {

  // ------------------------------------------------------------------ escaping

  /** `str.replace` with a one-character needle. */
  function Replace(s: string, c: char, with: string): string {
    if s == "" then "" else (if s[0] == c then with else [s[0]]) + Replace(s[1..], c, with)
  }

  /** The three chained replaces, with the metacharacters as parameters. */
  function Escape(s: string, many: char, one: char): string {
    Replace(Replace(Replace(s, '\\', "\\\\"), many, ['\\', many]), one, ['\\', one])
  }

  function EscapeChar(c: char, many: char, one: char): string {
    if c in {'\\', many, one} then ['\\', c] else [c]
  }

  /** Escaping in one pass over the characters. */
  function EscapeOnce(s: string, many: char, one: char): string {
    if s == "" then "" else EscapeChar(s[0], many, one) + EscapeOnce(s[1..], many, one)
  }

  predicate Metas(many: char, one: char) { many != '\\' && one != '\\' && many != one }

  lemma {:induction false} ReplaceAppend(a: string, b: string, c: char, with: string)
    ensures Replace(a + b, c, with) == Replace(a, c, with) + Replace(b, c, with)
  {
    if a == "" {
      assert a + b == b;
    } else {
      assert (a + b)[1..] == a[1..] + b;
      ReplaceAppend(a[1..], b, c, with);
      var x := if a[0] == c then with else [a[0]];
      assert x + (Replace(a[1..], c, with) + Replace(b, c, with)) == (x + Replace(a[1..], c, with)) + Replace(b, c, with);
    }
  }

  lemma ReplaceShort(s: string, c: char, with: string)
    requires |s| <= 2
    ensures |s| == 1 ==> Replace(s, c, with) == if s[0] == c then with else s
    ensures |s| == 2 ==> Replace(s, c, with) == (if s[0] == c then with else [s[0]]) + (if s[1] == c then with else [s[1]])
  {
    if |s| == 1 {
      assert s[1..] == "" && s == [s[0]];
    } else if |s| == 2 {
      assert s[1..] == [s[1]] && s[1..][1..] == "";
      assert Replace(s[1..], c, with) == if s[1] == c then with else [s[1]];
    }
  }

  /** The chained replaces on a single character. */
  lemma EscapeOneChar(c: char, many: char, one: char)
    requires Metas(many, one)
    ensures Escape([c], many, one) == EscapeChar(c, many, one)
  {
    ReplaceShort([c], '\\', "\\\\");
    var a := Replace([c], '\\', "\\\\");
    ReplaceShort(a, many, ['\\', many]);
    var b := Replace(a, many, ['\\', many]);
    ReplaceShort(b, one, ['\\', one]);
  }

  /** The later replaces do not disturb what the earlier ones wrote: chaining them is
      the same as one pass. */
  lemma {:induction false} ChainedIsOnePass(s: string, many: char, one: char)
    requires Metas(many, one)
    ensures Escape(s, many, one) == EscapeOnce(s, many, one)
  {
    if s != "" {
      var a, b := [s[0]], s[1..];
      assert s == a + b;
      ReplaceAppend(a, b, '\\', "\\\\");
      ReplaceAppend(Replace(a, '\\', "\\\\"), Replace(b, '\\', "\\\\"), many, ['\\', many]);
      ReplaceAppend(Replace(Replace(a, '\\', "\\\\"), many, ['\\', many]),
                    Replace(Replace(b, '\\', "\\\\"), many, ['\\', many]), one, ['\\', one]);
      assert Escape(s, many, one) == Escape(a, many, one) + Escape(b, many, one);
      EscapeOneChar(s[0], many, one);
      ChainedIsOnePass(b, many, one);
    }
  }

  // ------------------------------------------------------------------ matching

  datatype Token = Lit(c: char) | One | Many

  /** How the engine reads a pattern; a final lone backslash stands for itself. */
  function Parse(p: string, many: char, one: char): seq<Token>
    decreases |p|
  {
    if p == "" then []
    else if p[0] == '\\' && |p| > 1 then [Lit(p[1])] + Parse(p[2..], many, one)
    else [if p[0] == many then Many else if p[0] == one then One else Lit(p[0])] + Parse(p[1..], many, one)
  }

  predicate Match(ts: seq<Token>, s: string)
    decreases |ts|, |s|
  {
    if ts == [] then s == ""
    else match ts[0]
      case Lit(c) => s != "" && s[0] == c && Match(ts[1..], s[1..])
      case One => s != "" && Match(ts[1..], s[1..])
      case Many => Match(ts[1..], s) || (s != "" && Match(ts, s[1..]))
  }

  function Lits(t: string): seq<Token> { seq(|t|, i requires 0 <= i < |t| => Lit(t[i])) }

  lemma ParseEscapedChar(c: char, tail: string, many: char, one: char)
    requires Metas(many, one)
    ensures Parse(EscapeChar(c, many, one) + tail, many, one) == [Lit(c)] + Parse(tail, many, one)
  {
    var p := EscapeChar(c, many, one) + tail;
    if c in {'\\', many, one} {
      assert p[2..] == tail;
    } else {
      assert p[1..] == tail;
    }
  }

  /** An escaped text is read as its own characters, wherever it stands. */
  lemma {:induction false} ParseEscaped(t: string, rest: string, many: char, one: char)
    requires Metas(many, one)
    ensures Parse(EscapeOnce(t, many, one) + rest, many, one) == Lits(t) + Parse(rest, many, one)
  {
    hide Parse, EscapeChar;
    if t == "" {
      assert EscapeOnce(t, many, one) + rest == rest;
    } else {
      ParseEscaped(t[1..], rest, many, one);
      var head, tail := EscapeChar(t[0], many, one), EscapeOnce(t[1..], many, one);
      ParseEscapedChar(t[0], tail + rest, many, one);
      assert (head + tail) + rest == head + (tail + rest);
      assert Lits(t) == [Lit(t[0])] + Lits(t[1..]);
    }
  }

  lemma {:induction false} MatchLits(t: string, ts: seq<Token>, s: string)
    ensures Match(Lits(t) + ts, s) <==> t <= s && Match(ts, s[|t|..])
    decreases |t|
  {
    if t == "" {
      assert Lits(t) + ts == ts;
    } else {
      assert (Lits(t) + ts)[0] == Lit(t[0]) && (Lits(t) + ts)[1..] == Lits(t[1..]) + ts;
      if s != "" && s[0] == t[0] {
        MatchLits(t[1..], ts, s[1..]);
        assert t <= s <==> t[1..] <= s[1..];
        if t <= s { assert s[1..][|t[1..]|..] == s[|t|..]; }
      }
    }
  }

  lemma {:induction false} MatchMany(ts: seq<Token>, s: string)
    ensures Match([Many] + ts, s) <==> exists k: nat :: k <= |s| && Match(ts, s[k..])
    decreases |s|
  {
    assert ([Many] + ts)[1..] == ts;
    assert s[0..] == s;
    if s != "" {
      MatchMany(ts, s[1..]);
      if Match([Many] + ts, s[1..]) {
        var k: nat :| k <= |s[1..]| && Match(ts, s[1..][k..]);
        assert s[1..][k..] == s[k + 1..];
      }
      forall k: nat | 0 < k <= |s| && Match(ts, s[k..])
        ensures Match([Many] + ts, s[1..])
      {
        assert s[1..][k - 1..] == s[k..];
      }
    }
  }

  lemma MatchAnything(s: string)
    ensures Match([Many], s)
  {
    MatchMany([], s);
    assert [Many] + [] == [Many] && s[|s|..] == "";
    assert Match([], s[|s|..]);
  }

  // ------------------------------------------------------------------ what patterns mean

  predicate StartsWith(s: string, t: string) { t <= s }

  predicate EndsWith(s: string, t: string) { |t| <= |s| && s[|s| - |t|..] == t }

  /** `s.find(t) >= 0` */
  predicate Contains(s: string, t: string) { exists k: nat | k <= |s| :: t <= s[k..] }

  lemma ManyOf(p: string, many: char, one: char)
    requires Metas(many, one)
    ensures Parse([many] + p, many, one) == [Many] + Parse(p, many, one)
  {
    assert ([many] + p)[1..] == p;
  }

  lemma ParseMany(many: char, one: char)
    requires Metas(many, one)
    ensures Parse([many], many, one) == [Many] && Parse("", many, one) == []
  {
    assert [many][1..] == "";
  }

  /** `esc%` */
  lemma PrefixPattern(t: string, s: string, many: char, one: char)
    requires Metas(many, one)
    ensures Match(Parse(Escape(t, many, one) + [many], many, one), s) <==> StartsWith(s, t)
  {
    ChainedIsOnePass(t, many, one);
    ParseEscaped(t, [many], many, one);
    ParseMany(many, one);
    MatchLits(t, [Many], s);
    if t <= s { MatchAnything(s[|t|..]); }
  }

  lemma SuffixTokens(t: string, many: char, one: char)
    requires Metas(many, one)
    ensures Parse([many] + Escape(t, many, one), many, one) == [Many] + Lits(t)
  {
    ChainedIsOnePass(t, many, one);
    ManyOf(Escape(t, many, one), many, one);
    ParseEscaped(t, "", many, one);
    ParseMany(many, one);
    assert EscapeOnce(t, many, one) + "" == EscapeOnce(t, many, one) && Lits(t) + [] == Lits(t);
  }

  lemma InfixTokens(t: string, many: char, one: char)
    requires Metas(many, one)
    ensures Parse([many] + Escape(t, many, one) + [many], many, one) == [Many] + (Lits(t) + [Many])
  {
    ChainedIsOnePass(t, many, one);
    var e := Escape(t, many, one);
    assert [many] + e + [many] == [many] + (e + [many]);
    ManyOf(e + [many], many, one);
    ParseEscaped(t, [many], many, one);
    ParseMany(many, one);
  }

  lemma MatchSuffix(t: string, s: string)
    ensures Match([Many] + Lits(t), s) <==> EndsWith(s, t)
  {
    MatchMany(Lits(t), s);
    forall k: nat | k <= |s|
      ensures Match(Lits(t), s[k..]) <==> s[k..] == t
    {
      MatchLits(t, [], s[k..]);
      assert Lits(t) + [] == Lits(t);
    }
    if EndsWith(s, t) {
      var k: nat := |s| - |t|;
      assert Match(Lits(t), s[k..]);
    }
  }

  lemma MatchInfix(t: string, s: string)
    ensures Match([Many] + (Lits(t) + [Many]), s) <==> Contains(s, t)
  {
    MatchMany(Lits(t) + [Many], s);
    forall k: nat | k <= |s|
      ensures Match(Lits(t) + [Many], s[k..]) <==> t <= s[k..]
    {
      MatchLits(t, [Many], s[k..]);
      if t <= s[k..] { MatchAnything(s[k..][|t|..]); }
    }
  }

  /** `*esc` and `%esc` */
  lemma SuffixPattern(t: string, s: string, many: char, one: char)
    requires Metas(many, one)
    ensures Match(Parse([many] + Escape(t, many, one), many, one), s) <==> EndsWith(s, t)
  {
    SuffixTokens(t, many, one);
    MatchSuffix(t, s);
  }

  /** `*esc*` and `%esc%` */
  lemma InfixPattern(t: string, s: string, many: char, one: char)
    requires Metas(many, one)
    ensures Match(Parse([many] + Escape(t, many, one) + [many], many, one), s) <==> Contains(s, t)
  {
    InfixTokens(t, many, one);
    MatchInfix(t, s);
  }

  // ------------------------------------------------------------------ SQL literals

  /** `_escape_sql_string` */
  function Quote(s: string): string { Replace(s, '\'', "''") }

  datatype Literal = Literal(value: string, rest: string)

  /** How an engine reads the inside of a quoted literal: two quotes are one, a single
      quote ends it. */
  function ReadLiteral(text: string): Literal
    decreases |text|
  {
    if text == "" then Literal("", "")
    else if text[0] != '\'' then
      var l := ReadLiteral(text[1..]);
      Literal([text[0]] + l.value, l.rest)
    else if |text| > 1 && text[1] == '\'' then
      var l := ReadLiteral(text[2..]);
      Literal("'" + l.value, l.rest)
    else Literal("", text[1..])
  }

  /** Reading a quote-doubled text back yields the text, whatever it contains, and leaves
      what follows the literal untouched. */
  lemma {:induction false} LiteralRoundTrip(s: string, rest: string)
    requires rest == "" || rest[0] != '\''
    ensures ReadLiteral(Quote(s) + "'" + rest) == Literal(s, rest)
  {
    var text := Quote(s) + "'" + rest;
    if s == "" {
      assert text == "'" + rest && text[1..] == rest;
    } else {
      LiteralRoundTrip(s[1..], rest);
      var tail := Quote(s[1..]) + "'" + rest;
      if s[0] == '\'' {
        assert text == "''" + tail;
        assert text[2..] == tail;
        assert ['\''] + s[1..] == s;
      } else {
        assert text == [s[0]] + tail;
        assert text[1..] == tail;
        assert [s[0]] + s[1..] == s;
      }
    }
  }

  /** The Infinity prefix filter: the engine reads the literal and matches its contents
      as a LIKE pattern; the result is a plain prefix test. */
  lemma InfinityPrefix(t: string, s: string, rest: string)
    requires rest == "" || rest[0] != '\''
    ensures var l := ReadLiteral(Quote(Escape(t, '%', '_')) + "%" + "'" + rest);
            l.rest == rest && (Match(Parse(l.value, '%', '_'), s) <==> StartsWith(s, t))
  {
    var e := Escape(t, '%', '_');
    ReplaceAppend(e, "%", '\'', "''");
    ReplaceShort("%", '\'', "''");
    assert Quote(e + "%") == Quote(e) + "%";
    LiteralRoundTrip(e + "%", rest);
    PrefixPattern(t, s, '%', '_');
    assert e + "%" == e + ['%'];
  }

  lemma InfinitySuffix(t: string, s: string, rest: string)
    requires rest == "" || rest[0] != '\''
    ensures var l := ReadLiteral("%" + Quote(Escape(t, '%', '_')) + "'" + rest);
            l.rest == rest && (Match(Parse(l.value, '%', '_'), s) <==> EndsWith(s, t))
  {
    var e := Escape(t, '%', '_');
    ReplaceAppend("%", e, '\'', "''");
    ReplaceShort("%", '\'', "''");
    assert Quote("%" + e) == "%" + Quote(e);
    LiteralRoundTrip("%" + e, rest);
    SuffixPattern(t, s, '%', '_');
    assert "%" + e == ['%'] + e;
  }
}
