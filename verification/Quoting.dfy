/**
 SQL literal, identifier and configuration-value quoting, each against a reader written from the
 PostgreSQL documentation: sections 4.1.1 (delimited identifiers), 4.1.2.1 (string constants) and
 4.1.2.2 (constants with C-style escapes), and the quoted-string token of the configuration file.
 */
module Quoting {

  // ---------------------------------------------------------------- Writers

  /** Every occurrence of `c` replaced by `with`. */
  function Replace(s: string, c: char, with: string): string {
    if s == "" then "" else (if s[0] == c then with else [s[0]]) + Replace(s[1..], c, with)
  }

  function EscapeBody(s: string): string {
    Replace(Replace(s, '\'', "''"), '\\', "\\\\")
  }

  function EscapeLiteral(s: string): string {
    var body := EscapeBody(s);
    if '\\' in body then "E'" + body + "'" else "'" + body + "'"
  }

  function EscapeConfValue(s: string): string {
    "'" + EscapeBody(s) + "'"
  }

  function PgQuote(s: string): string {
    "\"" + Replace(s, '"', "\"\"") + "\""
  }

  // ---------------------------------------------------------------- Readers

  /** A token's value and the text after it; numeric escapes are recognised but not decoded. */
  datatype Read = Token(value: string, rest: string) | NumericEscape | Malformed

  function Prepend(s: string, r: Read): Read {
    if r.Token? then Token(s + r.value, r.rest) else r
  }

  /** Text up to the closing quote `q`, which is written twice to stand for itself. */
  function ReadDoubled(t: string, q: char): Read {
    if t == "" then Malformed
    else if t[0] != q then Prepend([t[0]], ReadDoubled(t[1..], q))
    else if |t| > 1 && t[1] == q then Prepend([q], ReadDoubled(t[2..], q))
    else Token("", t[1..])
  }

  /** The character that a backslash followed by `c` stands for. */
  function Unescaped(c: char): char {
    match c
    case 'b' => '\U{0008}'
    case 'f' => '\U{000C}'
    case 'n' => '\n'
    case 'r' => '\r'
    case 't' => '\t'
    case _ => c
  }

  /** What a quoted string of the configuration file cannot hold as it is. */
  predicate BreaksConf(c: char) {
    c == '\n' || c == '\0'
  }

  /**
   Text up to the closing quote with backslash escapes. SQL constants may hold newlines and have
   hexadecimal and Unicode escapes; strings of the configuration file have neither.
   */
  function ReadEscaped(t: string, sql: bool): Read {
    if t == "" || (BreaksConf(t[0]) && !sql) then Malformed
    else if t[0] == '\\' then
      if |t| == 1 || (BreaksConf(t[1]) && !sql) then Malformed
      else if '0' <= t[1] <= '7' || (sql && t[1] in {'x', 'u', 'U'}) then NumericEscape
      else Prepend([Unescaped(t[1])], ReadEscaped(t[2..], sql))
    else if t[0] != '\'' then Prepend([t[0]], ReadEscaped(t[1..], sql))
    else if |t| > 1 && t[1] == '\'' then Prepend("'", ReadEscaped(t[2..], sql))
    else Token("", t[1..])
  }

  function ReadLiteral(t: string): Read {
    if |t| >= 2 && t[0] == 'E' && t[1] == '\'' then ReadEscaped(t[2..], true)
    else if t != "" && t[0] == '\'' then ReadDoubled(t[1..], '\'')
    else Malformed
  }

  function ReadIdentifier(t: string): Read {
    if t != "" && t[0] == '"' then ReadDoubled(t[1..], '"') else Malformed
  }

  function ReadConfString(t: string): Read {
    if t != "" && t[0] == '\'' then ReadEscaped(t[1..], false) else Malformed
  }

  /** The text goes on with the quote character, so a closing quote before it would not close. */
  predicate StartsWith(t: string, q: char) {
    t != "" && t[0] == q
  }

  // ---------------------------------------------------------------- Round trips

  predicate HoldsBreak(s: string) {
    exists i :: 0 <= i < |s| && BreaksConf(s[i])
  }

  function EscapeChar(c: char): string {
    if c == '\'' then "''" else if c == '\\' then "\\\\" else [c]
  }

  lemma {:induction false} ReplaceAppend(a: string, b: string, c: char, with: string)
    ensures Replace(a + b, c, with) == Replace(a, c, with) + Replace(b, c, with)
  {
    if a == "" {
      assert a + b == b;
    } else {
      assert (a + b)[1..] == a[1..] + b;
      ReplaceAppend(a[1..], b, c, with);
    }
  }

  lemma ReplaceOne(x: char, c: char, with: string)
    ensures Replace([x], c, with) == if x == c then with else [x]
  {
    assert [x][1..] == "";
  }

  /** The two chained replacements amount to one replacement per character. */
  lemma ChainIsOneMap(s: string)
    ensures EscapeBody(s) == if s == "" then "" else EscapeChar(s[0]) + EscapeBody(s[1..])
  {
    if s != "" {
      var c, tail := s[0], Replace(s[1..], '\'', "''");
      if c == '\'' {
        ReplaceAppend("''", tail, '\\', "\\\\");
        ReplaceAppend("'", "'", '\\', "\\\\");
        assert "'" + "'" == "''";
        ReplaceOne('\'', '\\', "\\\\");
      } else {
        ReplaceAppend([c], tail, '\\', "\\\\");
        ReplaceOne(c, '\\', "\\\\");
      }
    }
  }

  lemma EscapedStep(c: char, sql: bool, text: string)
    requires sql || !BreaksConf(c)
    ensures ReadEscaped(EscapeChar(c) + text, sql) == Prepend([c], ReadEscaped(text, sql))
  {
    var t := EscapeChar(c) + text;
    assert t[|EscapeChar(c)|..] == text;
  }

  lemma PrependPrepend(a: string, b: string, r: Read)
    ensures Prepend(a, Prepend(b, r)) == Prepend(a + b, r)
  {
    if r.Token? {
      assert a + (b + r.value) == a + b + r.value;
    }
  }

  lemma {:induction false} DoubledReadsBack(s: string, q: char, t: string)
    ensures ReadDoubled(Replace(s, q, [q, q]) + t, q) == Prepend(s, ReadDoubled(t, q))
  {
    if s != "" {
      var head := if s[0] == q then [q, q] else [s[0]];
      var text := Replace(s[1..], q, [q, q]) + t;
      assert Replace(s, q, [q, q]) + t == head + text;
      assert (head + text)[|head|..] == text;
      DoubledReadsBack(s[1..], q, t);
      PrependPrepend([s[0]], s[1..], ReadDoubled(t, q));
      assert [s[0]] + s[1..] == s;
    } else {
      assert Replace(s, q, [q, q]) + t == t;
    }
  }

  lemma Regroup(a: string, b: string, c: string)
    ensures (a + b) + c == a + (b + c)
  {}

  lemma EscapeBodyStep(s: string, t: string)
    requires s != ""
    ensures EscapeBody(s) + t == EscapeChar(s[0]) + (EscapeBody(s[1..]) + t)
  {
    ChainIsOneMap(s);
    Regroup(EscapeChar(s[0]), EscapeBody(s[1..]), t);
  }

  lemma {:induction false} EscapedReadsBack(s: string, sql: bool, t: string)
    requires sql || !HoldsBreak(s)
    ensures ReadEscaped(EscapeBody(s) + t, sql) == Prepend(s, ReadEscaped(t, sql))
  {
    if s != "" {
      EscapeBodyStep(s, t);
      EscapedStep(s[0], sql, EscapeBody(s[1..]) + t);
      EscapedReadsBack(s[1..], sql, t);
      PrependPrepend([s[0]], s[1..], ReadEscaped(t, sql));
      assert [s[0]] + s[1..] == s;
    } else {
      assert EscapeBody(s) + t == t;
    }
  }

  lemma {:induction false} NoBackslashBody(s: string)
    ensures '\\' in EscapeBody(s) <==> '\\' in s
    ensures '\\' !in s ==> EscapeBody(s) == Replace(s, '\'', "''")
  {
    ChainIsOneMap(s);
    if s != "" {
      NoBackslashBody(s[1..]);
      assert s == [s[0]] + s[1..];
    }
  }

  /** The token ends at its closing quote unless the text goes on with another one. */
  lemma DoubledTokenReadsBack(s: string, q: char, rest: string)
    ensures ReadDoubled(Replace(s, q, [q, q]) + ([q] + rest), q) == Token(s, rest) <==> !StartsWith(rest, q)
  {
    var t := [q] + rest;
    DoubledReadsBack(s, q, t);
    var r := ReadDoubled(t, q);
    if StartsWith(rest, q) {
      assert t[0] == t[1] == q;
      assert r == Prepend([q], ReadDoubled(t[2..], q));
      assert r.Token? ==> |s + r.value| > |s|;
    } else {
      assert t[1..] == rest;
    }
  }

  /** Identifiers read back, and the reader stops at the closing quote unless the text goes on with one. */
  lemma PgQuoteReadsBack(s: string, rest: string)
    ensures ReadIdentifier(PgQuote(s) + rest) == Token(s, rest) <==> !StartsWith(rest, '"')
  {
    assert ['"', '"'] == "\"\"";
    assert (PgQuote(s) + rest)[1..] == Replace(s, '"', "\"\"") + (['"'] + rest);
    DoubledTokenReadsBack(s, '"', rest);
  }

  /** Closing an escaped token: the same decision, for the reader with backslash escapes. */
  lemma CloseEscaped(s: string, rest: string)
    ensures Prepend(s, ReadEscaped("'" + rest, true)) == Token(s, rest) <==> !StartsWith(rest, '\'')
  {
    var t := "'" + rest;
    var r := ReadEscaped(t, true);
    if StartsWith(rest, '\'') {
      assert t[0] == t[1] == '\'';
      assert r == Prepend("'", ReadEscaped(t[2..], true));
      assert r.Token? ==> |s + r.value| > |s|;
    } else {
      assert t[1..] == rest;
    }
  }

  lemma EscapedFormReadsBack(s: string, rest: string)
    ensures ReadLiteral("E'" + EscapeBody(s) + "'" + rest) == Token(s, rest) <==> !StartsWith(rest, '\'')
  {
    var text := "E'" + EscapeBody(s) + "'" + rest;
    assert text[0] == 'E' && text[1] == '\'';
    assert text[2..] == EscapeBody(s) + ("'" + rest);
    EscapedReadsBack(s, true, "'" + rest);
    CloseEscaped(s, rest);
  }

  lemma PlainLiteral(body: string, rest: string)
    ensures ReadLiteral("'" + body + "'" + rest) == ReadDoubled(body + (['\''] + rest), '\'')
  {
    var text := "'" + body + "'" + rest;
    assert text[0] == '\'';
    assert text[1..] == body + (['\''] + rest);
  }

  lemma PlainFormReadsBack(s: string, rest: string)
    ensures ReadLiteral("'" + Replace(s, '\'', "''") + "'" + rest) == Token(s, rest) <==> !StartsWith(rest, '\'')
  {
    PlainLiteral(Replace(s, '\'', "''"), rest);
    assert ['\'', '\''] == "''";
    DoubledTokenReadsBack(s, '\'', rest);
  }

  /** Literals read back for every input, in whichever of the two forms was chosen. */
  lemma EscapeLiteralReadsBack(s: string, rest: string)
    ensures ReadLiteral(EscapeLiteral(s) + rest) == Token(s, rest) <==> !StartsWith(rest, '\'')
  {
    NoBackslashBody(s);
    EscapedFormReadsBack(s, rest);
    PlainFormReadsBack(s, rest);
  }

  lemma BreakStops(c: char, text: string)
    requires BreaksConf(c)
    ensures EscapeChar(c) == [c] && ReadEscaped([c] + text, false) == Malformed
  {}

  /** The form with escapes is chosen exactly for strings with a backslash. */
  lemma EscapeLiteralForm(s: string)
    ensures EscapeLiteral(s)[0] == 'E' <==> '\\' in s
    ensures '\\' !in s ==> EscapeLiteral(s) == "'" + Replace(s, '\'', "''") + "'"
  {
    NoBackslashBody(s);
  }

  lemma {:induction false} BreakMalformed(s: string, t: string)
    requires HoldsBreak(s)
    ensures !ReadEscaped(EscapeBody(s) + t, false).Token?
  {
    EscapeBodyStep(s, t);
    if BreaksConf(s[0]) {
      BreakStops(s[0], EscapeBody(s[1..]) + t);
    } else {
      assert s == [s[0]] + s[1..];
      EscapedStep(s[0], false, EscapeBody(s[1..]) + t);
      BreakMalformed(s[1..], t);
    }
  }

  /** A configuration value reads back exactly when it holds no newline and no null character. */
  lemma EscapeConfValueReadsBack(s: string, rest: string)
    requires !StartsWith(rest, '\'')
    ensures ReadConfString(EscapeConfValue(s) + rest) == Token(s, rest) <==> !HoldsBreak(s)
  {
    var t := "'" + rest;
    assert (EscapeConfValue(s) + rest)[1..] == EscapeBody(s) + t;
    if HoldsBreak(s) {
      BreakMalformed(s, t);
    } else {
      EscapedReadsBack(s, false, t);
    }
  }

  /** Quoting never yields the name itself, and distinct names stay distinct. */
  lemma PgQuoteInjective(a: string, b: string)
    requires PgQuote(a) == PgQuote(b)
    ensures a == b
  {
    PgQuoteReadsBack(a, "");
    PgQuoteReadsBack(b, "");
  }

  lemma {:induction false} ReplaceLonger(s: string, c: char, with: string)
    requires |with| >= 1
    ensures |Replace(s, c, with)| >= |s|
  {
    if s != "" {
      ReplaceLonger(s[1..], c, with);
    }
  }

  lemma PgQuoteLonger(s: string)
    ensures |PgQuote(s)| >= |s| + 2
  {
    ReplaceLonger(s, '"', "\"\"");
  }
}
