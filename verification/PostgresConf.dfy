/**
 The configuration file that the control plane writes, with the index it keeps beside the lines,
 against a reader written from the server's own lexer and parser: longest-match tokens, one setting
 per line, include directives, names compared without regard to case, and the last setting wins.
 */
module PostgresConf {
  import opened Wrappers
  import opened Quoting

  // ---------------------------------------------------------------- Characters

  datatype Class = Digit | HexDigit | Letter | IdStart | IdChar | WordChar | BlankChar | LineChar

  predicate In(c: char, k: Class)
    decreases k.WordChar?, k.IdChar?, k.IdStart?, k.HexDigit?
  {
    match k
    case Digit => '0' <= c <= '9'
    case HexDigit => In(c, Digit) || 'a' <= c <= 'f' || 'A' <= c <= 'F'
    case Letter => 'a' <= c <= 'z' || 'A' <= c <= 'Z'
    case IdStart => In(c, Letter) || c == '_' || '\U{0080}' <= c
    case IdChar => In(c, IdStart) || In(c, Digit)
    case WordChar => In(c, IdChar) || c == '-' || c == '.' || c == ':' || c == '/'
    case BlankChar => c == ' ' || c == '\t' || c == '\r'
    case LineChar => c != '\n'
  }

  predicate All(s: string, k: Class) {
    forall i :: 0 <= i < |s| ==> In(s[i], k)
  }

  /** The length of the longest prefix made of such characters. */
  function Span(s: string, k: Class): (n: nat)
    ensures n <= |s|
  {
    if s == "" || !In(s[0], k) then 0 else 1 + Span(s[1..], k)
  }

  lemma {:induction false} SpanLongest(s: string, k: Class)
    ensures var n := Span(s, k); All(s[..n], k) && (n < |s| ==> !In(s[n], k))
  {
    if s != "" && In(s[0], k) {
      SpanLongest(s[1..], k);
      var n := Span(s, k);
      assert s[..n] == [s[0]] + s[1..][..n - 1];
    }
  }

  lemma {:induction false} SpanIs(w: string, t: string, k: Class)
    requires All(w, k) && (t == "" || !In(t[0], k))
    ensures Span(w + t, k) == |w| && (w + t)[..|w|] == w && (w + t)[|w|..] == t
  {
    if w == "" {
      assert w + t == t;
    } else {
      assert (w + t)[1..] == w[1..] + t;
      SpanIs(w[1..], t, k);
    }
  }

  // ---------------------------------------------------------------- Writer

  /** `[-+]?[0-9]+[a-zA-Z]*` */
  predicate IsNumber(s: string) {
    var sign := SignLength(s);
    exists k :: sign < k <= |s| && All(s[sign..k], Digit) && All(s[k..], Letter)
  }

  function SignLength(s: string): nat {
    if s != "" && (s[0] == '-' || s[0] == '+') then 1 else 0
  }

  /** `[a-zA-Z][a-zA-Z0-9]*` */
  predicate IsWord(s: string) {
    s != "" && In(s[0], Letter) && forall i :: 0 <= i < |s| ==> In(s[i], Letter) || In(s[i], Digit)
  }

  function EscapeChain(s: string): string {
    Replace(Replace(Replace(s, '\\', "\\\\"), '\n', "\\n"), '\'', "''")
  }

  function EscapeStr(s: string): string {
    if IsNumber(s) || IsWord(s) then s else "'" + EscapeChain(s) + "'"
  }

  function SettingLine(option: string, value: string): string {
    option + "=" + EscapeStr(value) + "\n"
  }

  function Concat(lines: seq<string>): string {
    if lines == [] then "" else Concat(lines[..|lines| - 1]) + lines[|lines| - 1]
  }

  datatype Call = SetOption(option: string, value: string) | ExtraLine(line: string)

  function Line(call: Call): string {
    match call
    case SetOption(option, value) => SettingLine(option, value)
    case ExtraLine(line) => line
  }

  function Lines(calls: seq<Call>): seq<string> {
    if calls == [] then [] else Lines(calls[..|calls| - 1]) + [Line(calls[|calls| - 1])]
  }

  function Index(calls: seq<Call>): map<string, string> {
    if calls == [] then map[] else
      var before, call := Index(calls[..|calls| - 1]), calls[|calls| - 1];
      if call.SetOption? then before[call.option := call.value] else before
  }

  // ---------------------------------------------------------------- Reader: tokens

  function SkipBlank(t: string): string {
    t[Span(t, BlankChar)..]
  }

  predicate IsId(s: string) {
    s != "" && In(s[0], IdStart) && All(s, IdChar)
  }

  predicate IsQualified(s: string) {
    exists k :: 0 <= k < |s| && s[k] == '.' && IsId(s[..k]) && IsId(s[k + 1..])
  }

  /** The longest word; it is an identifier or a qualified one where it has that form. */
  function ReadWord(t: string): Read {
    if t == "" || !In(t[0], IdStart) then Malformed else var n := Span(t, WordChar); Token(t[..n], t[n..])
  }

  function ReadName(t: string): Read {
    var w := ReadWord(t);
    if w.Token? && (IsId(w.value) || IsQualified(w.value)) then w else Malformed
  }

  /** `[-+]?[0-9]+[a-zA-Z]*`; the length of the match, or zero. */
  function DecimalLength(t: string): (n: nat)
    ensures n <= |t|
  {
    var sign := SignLength(t);
    var digits := Span(t[sign..], Digit);
    if digits == 0 then 0 else sign + digits + Span(t[sign + digits..], Letter)
  }

  /** `[-+]?0x[0-9a-fA-F]+[a-zA-Z]*` */
  function HexLength(t: string): (n: nat)
    ensures n <= |t|
  {
    var sign := SignLength(t);
    if |t| < sign + 2 || t[sign] != '0' || t[sign + 1] != 'x' then 0 else
      var digits := Span(t[sign + 2..], HexDigit);
      if digits == 0 then 0 else sign + 2 + digits + Span(t[sign + 2 + digits..], Letter)
  }

  /** `([eE][-+]?[0-9]+)?` */
  function ExponentLength(t: string): (n: nat)
    ensures n <= |t|
  {
    if !StartsWith(t, 'e') && !StartsWith(t, 'E') then 0 else
      var sign := SignLength(t[1..]);
      var digits := Span(t[1 + sign..], Digit);
      if digits == 0 then 0 else 1 + sign + digits
  }

  /** `[-+]?[0-9]*[.][0-9]*([eE][-+]?[0-9]+)?` */
  function RealLength(t: string): (n: nat)
    ensures n <= |t|
  {
    var sign := SignLength(t);
    var whole := sign + Span(t[sign..], Digit);
    if !StartsWith(t[whole..], '.') then 0 else
      var n := whole + 1 + Span(t[whole + 1..], Digit);
      n + ExponentLength(t[n..])
  }

  function Longer(a: nat, b: nat): nat {
    if a < b then b else a
  }

  function ReadNumber(t: string): Read {
    var n := Longer(Longer(DecimalLength(t), HexLength(t)), RealLength(t));
    if n == 0 then Malformed else Token(t[..n], t[n..])
  }

  /** A quoted string, a word that is not a qualified identifier, or a number. */
  function ReadValue(t: string): Read {
    if StartsWith(t, '\'') then ReadConfString(t)
    else if t != "" && In(t[0], IdStart) then
      var w := ReadWord(t);
      if w.Token? && IsQualified(w.value) then Malformed else w
    else ReadNumber(t)
  }

  // ---------------------------------------------------------------- Reader: lines

  /** The server compares names without regard to the case of the letters A to Z. */
  function Lower(c: char): char {
    if 'A' <= c <= 'Z' then (c as int + 32) as char else c
  }

  function Fold(s: string): (r: string)
    ensures |r| == |s| && forall i :: 0 <= i < |s| ==> r[i] == Lower(s[i])
  {
    seq(|s|, i requires 0 <= i < |s| => Lower(s[i]))
  }

  predicate IsDirective(name: string) {
    Fold(name) == "include" || Fold(name) == "include_dir" || Fold(name) == "include_if_exists"
  }

  /** The names under which the file can hold a setting. */
  predicate OptionName(s: string) {
    (IsId(s) || IsQualified(s)) && !IsDirective(s)
  }

  /** What a line holds; include directives are not settings and count as bad here. */
  datatype Entry = Blank | Setting(name: string, value: string) | Bad

  predicate AtEnd(t: string) {
    SkipBlank(t) == "" || SkipBlank(t)[0] == '#'
  }

  function SkipEqual(t: string): string {
    var r := SkipBlank(t);
    if StartsWith(r, '=') then SkipBlank(r[1..]) else r
  }

  function ReadRest(name: string, rest: string): Entry {
    var value := ReadValue(SkipEqual(rest));
    if value.Token? && AtEnd(value.rest) && !IsDirective(name) then Setting(name, value.value) else Bad
  }

  function ReadLine(t: string): Entry {
    if AtEnd(t) then Blank else
      var name := ReadName(SkipBlank(t));
      if name.Token? then ReadRest(name.value, name.rest) else Bad
  }

  /** The settings by folded name after the whole text, the last one of a name winning. */
  function ReadFile(text: string, settings: map<string, string>): Result<map<string, string>, ()>
    decreases |text|
  {
    if text == "" then Ok(settings) else
      var n := Span(text, LineChar);
      var rest := if n < |text| then text[n + 1..] else "";
      match ReadLine(text[..n])
      case Blank => ReadFile(rest, settings)
      case Setting(name, value) => ReadFile(rest, settings[Fold(name) := value])
      case Bad => Err(())
  }

  // ---------------------------------------------------------------- Values

  function EscapeOne(c: char): string {
    if c == '\\' then "\\\\" else if c == '\n' then "\\n" else if c == '\'' then "''" else [c]
  }

  lemma ChainAppend(a: string, b: string)
    ensures EscapeChain(a + b) == EscapeChain(a) + EscapeChain(b)
  {
    ReplaceAppend(a, b, '\\', "\\\\");
    var a1, b1 := Replace(a, '\\', "\\\\"), Replace(b, '\\', "\\\\");
    ReplaceAppend(a1, b1, '\n', "\\n");
    ReplaceAppend(Replace(a1, '\n', "\\n"), Replace(b1, '\n', "\\n"), '\'', "''");
  }

  lemma ReplaceTwo(x: char, y: char, c: char, with: string)
    requires x != c && y != c
    ensures Replace([x, y], c, with) == [x, y]
  {
    ReplaceAppend([x], [y], c, with);
    assert [x] + [y] == [x, y];
    ReplaceOne(x, c, with);
    ReplaceOne(y, c, with);
  }

  lemma ChainOne(c: char)
    ensures EscapeChain([c]) == EscapeOne(c)
  {
    ReplaceOne(c, '\\', "\\\\");
    ReplaceOne(c, '\n', "\\n");
    ReplaceOne(c, '\'', "''");
    ReplaceTwo('\\', '\\', '\n', "\\n");
    ReplaceTwo('\\', '\\', '\'', "''");
    ReplaceTwo('\\', 'n', '\'', "''");
    assert ['\\', '\\'] == "\\\\" && ['\\', 'n'] == "\\n";
  }

  /** The three chained replacements amount to one replacement per character. */
  lemma ChainIsMap(s: string)
    requires s != ""
    ensures EscapeChain(s) == EscapeOne(s[0]) + EscapeChain(s[1..])
  {
    assert s == [s[0]] + s[1..];
    ChainAppend([s[0]], s[1..]);
    ChainOne(s[0]);
  }

  lemma {:induction false} ChainStaysInLine(s: string)
    ensures All(EscapeChain(s), LineChar)
  {
    if s != "" {
      ChainIsMap(s);
      ChainStaysInLine(s[1..]);
    }
  }

  lemma EscapedOneReads(c: char, text: string)
    ensures ReadEscaped(EscapeOne(c) + text, false) == if c == '\0' then Malformed else Prepend([c], ReadEscaped(text, false))
  {
    assert (EscapeOne(c) + text)[|EscapeOne(c)|..] == text;
  }

  lemma ChainStep(s: string, t: string)
    requires s != ""
    ensures EscapeChain(s) + t == EscapeOne(s[0]) + (EscapeChain(s[1..]) + t)
  {
    ChainIsMap(s);
  }

  /** The null character cannot be written; everything else reads back. */
  lemma {:induction false} ChainReadsBack(s: string, t: string)
    ensures '\0' !in s ==> ReadEscaped(EscapeChain(s) + t, false) == Prepend(s, ReadEscaped(t, false))
    ensures '\0' in s ==> !ReadEscaped(EscapeChain(s) + t, false).Token?
  {
    if s == "" {
      assert EscapeChain(s) + t == t;
    } else {
      ChainStep(s, t);
      EscapedOneReads(s[0], EscapeChain(s[1..]) + t);
      ChainReadsBack(s[1..], t);
      PrependPrepend([s[0]], s[1..], ReadEscaped(t, false));
      assert [s[0]] + s[1..] == s;
    }
  }

  lemma QuotedReadsBack(s: string)
    ensures '\0' !in s ==> ReadValue("'" + EscapeChain(s) + "'") == Token(s, "")
    ensures '\0' in s ==> !ReadValue("'" + EscapeChain(s) + "'").Token?
  {
    var text := "'" + EscapeChain(s) + "'";
    assert text[1..] == EscapeChain(s) + "'";
    ChainReadsBack(s, "'");
    assert "'"[1..] == "";
  }

  lemma WordReadsBack(s: string)
    requires IsWord(s)
    ensures ReadValue(s) == Token(s, "") && '\0' !in s
  {
    SpanIs(s, "", WordChar);
    assert s + "" == s;
    assert !IsQualified(s);
  }

  lemma NumberLength(sign: nat, digits: string, letters: string, s: string)
    requires sign == SignLength(s) && sign < |s| && s[sign..] == digits + letters
    requires digits != "" && All(digits, Digit) && All(letters, Letter)
    ensures DecimalLength(s) == |s|
  {
    SpanIs(digits, letters, Digit) by {
      assert letters != "" ==> In(letters[0], Letter);
    }
    assert s[sign + |digits|..] == s[sign..][|digits|..];
    SpanIs(letters, "", Letter);
    assert letters + "" == letters;
  }

  lemma NumberPartsInLine(sign: nat, k: nat, s: string)
    requires sign == SignLength(s) && sign < k <= |s| && All(s[sign..k], Digit) && All(s[k..], Letter)
    ensures All(s, LineChar) && '\0' !in s && !In(s[0], IdStart) && !In(s[0], BlankChar) && s[0] != '\''
  {
    forall i | 0 <= i < |s| ensures In(s[i], LineChar) && s[i] != '\0' {
      assert sign <= i < k ==> s[i] == s[sign..k][i - sign];
      assert k <= i ==> s[i] == s[k..][i - k];
    }
    assert s[sign] == s[sign..k][0];
  }

  lemma Cut(s: string, i: nat, k: nat)
    requires i <= k <= |s|
    ensures s[i..] == s[i..k] + s[k..]
  {}

  lemma WholeNumber(s: string)
    requires s != "" && DecimalLength(s) == |s|
    ensures ReadNumber(s) == Token(s, "")
  {
    assert s[..|s|] == s && s[|s|..] == "";
  }

  lemma NumberReadsBack(s: string)
    requires IsNumber(s)
    ensures ReadNumber(s) == Token(s, "") && '\0' !in s
    ensures All(s, LineChar) && s != "" && !In(s[0], IdStart) && !In(s[0], BlankChar) && s[0] != '\''
  {
    var sign := SignLength(s);
    var k :| sign < k <= |s| && All(s[sign..k], Digit) && All(s[k..], Letter);
    NumberPartsInLine(sign, k, s);
    Cut(s, sign, k);
    NumberLength(sign, s[sign..k], s[k..], s);
    WholeNumber(s);
  }

  /** A value reads back from its written form exactly when it holds no null character. */
  lemma ValueReadsBack(s: string)
    ensures '\0' !in s ==> ReadValue(EscapeStr(s)) == Token(s, "")
    ensures '\0' in s ==> !ReadValue(EscapeStr(s)).Token?
    ensures All(EscapeStr(s), LineChar)
    ensures EscapeStr(s) != "" && !In(EscapeStr(s)[0], BlankChar)
  {
    if IsWord(s) {
      WordReadsBack(s);
    } else if IsNumber(s) {
      NumberReadsBack(s);
    } else {
      QuotedReadsBack(s);
      ChainStaysInLine(s);
    }
  }

  // ---------------------------------------------------------------- Which values stay unquoted

  /** Where the expression for unquoted values is after some text. */
  datatype Matcher = AtStart | AfterSign | InDigits | InUnits | InWord | NoMatch

  function Feed(m: Matcher, c: char): Matcher {
    match m
    case AtStart =>
      if c == '-' || c == '+' then AfterSign else if In(c, Digit) then InDigits else if In(c, Letter) then InWord else NoMatch
    case AfterSign => if In(c, Digit) then InDigits else NoMatch
    case InDigits => if In(c, Digit) then InDigits else if In(c, Letter) then InUnits else NoMatch
    case InUnits => if In(c, Letter) then InUnits else NoMatch
    case InWord => if In(c, Letter) || In(c, Digit) then InWord else NoMatch
    case NoMatch => NoMatch
  }

  function FeedAll(m: Matcher, s: string): Matcher
    decreases |s|
  {
    if s == "" then m else FeedAll(Feed(m, s[0]), s[1..])
  }

  predicate Accepting(m: Matcher) {
    m.InDigits? || m.InUnits? || m.InWord?
  }

  lemma {:induction false} DeadStays(s: string)
    ensures FeedAll(NoMatch, s) == NoMatch
  {
    if s != "" {
      DeadStays(s[1..]);
    }
  }

  lemma {:induction false} UnitsMatch(s: string)
    ensures Accepting(FeedAll(InUnits, s)) <==> All(s, Letter)
  {
    if s != "" {
      UnitsMatch(s[1..]);
      DeadStays(s[1..]);
      assert s == [s[0]] + s[1..];
    }
  }

  lemma {:induction false} WordMatch(s: string)
    ensures Accepting(FeedAll(InWord, s)) <==> forall i :: 0 <= i < |s| ==> In(s[i], Letter) || In(s[i], Digit)
  {
    if s != "" {
      WordMatch(s[1..]);
      DeadStays(s[1..]);
      assert s == [s[0]] + s[1..];
    }
  }

  /** Digits, then letters. */
  ghost predicate DigitsThenLetters(s: string) {
    exists k :: 0 <= k <= |s| && All(s[..k], Digit) && All(s[k..], Letter)
  }

  lemma DigitsCons(s: string)
    requires s != ""
    ensures DigitsThenLetters(s) <==> All(s, Letter) || (In(s[0], Digit) && DigitsThenLetters(s[1..]))
  {
    if All(s, Letter) {
      assert s[..0] == "" && s[0..] == s;
    }
    if In(s[0], Digit) && DigitsThenLetters(s[1..]) {
      var k :| 0 <= k <= |s[1..]| && All(s[1..][..k], Digit) && All(s[1..][k..], Letter);
      assert s[..k + 1] == [s[0]] + s[1..][..k] && s[k + 1..] == s[1..][k..];
    }
    if DigitsThenLetters(s) && !All(s, Letter) {
      var k :| 0 <= k <= |s| && All(s[..k], Digit) && All(s[k..], Letter);
      assert s[0..] == s;
      assert s[..k][0] == s[0];
      assert s[1..][..k - 1] == s[..k][1..] && s[1..][k - 1..] == s[k..];
    }
  }

  lemma {:induction false} DigitsMatch(s: string)
    ensures Accepting(FeedAll(InDigits, s)) <==> DigitsThenLetters(s)
  {
    if s == "" {
      assert s[..0] == "" && s[0..] == "";
    } else {
      DigitsMatch(s[1..]);
      UnitsMatch(s[1..]);
      DeadStays(s[1..]);
      DigitsCons(s);
      assert s == [s[0]] + s[1..];
    }
  }

  lemma DigitsAfter(s: string, i: nat, k: nat)
    requires i < k <= |s| && All(s[i..k], Digit) && All(s[k..], Letter)
    ensures In(s[i], Digit) && DigitsThenLetters(s[i + 1..])
  {
    var t, n := s[i + 1..], k - i - 1;
    assert s[i..k][0] == s[i];
    assert t[..n] == s[i..k][1..] && t[n..] == s[k..];
  }

  lemma DigitsBefore(s: string, i: nat, n: nat)
    requires i + 1 + n <= |s| && In(s[i], Digit) && All(s[i + 1..][..n], Digit) && All(s[i + 1..][n..], Letter)
    ensures All(s[i..i + 1 + n], Digit) && All(s[i + 1 + n..], Letter)
  {
    var t := s[i + 1..];
    assert s[i..i + 1 + n] == [s[i]] + t[..n] && s[i + 1 + n..] == t[n..];
  }

  lemma NumberShape(s: string, sign: nat)
    requires sign == SignLength(s)
    ensures IsNumber(s) <==> sign < |s| && In(s[sign], Digit) && DigitsThenLetters(s[sign + 1..])
  {
    if IsNumber(s) {
      var k :| sign < k <= |s| && All(s[sign..k], Digit) && All(s[k..], Letter);
      DigitsAfter(s, sign, k);
    }
    if sign < |s| && In(s[sign], Digit) && DigitsThenLetters(s[sign + 1..]) {
      var n :| 0 <= n <= |s[sign + 1..]| && All(s[sign + 1..][..n], Digit) && All(s[sign + 1..][n..], Letter);
      DigitsBefore(s, sign, n);
    }
  }

  /** The numbers and words are exactly what the automaton of the expression accepts. */
  lemma UnquotedIsRegular(s: string)
    ensures IsNumber(s) || IsWord(s) <==> Accepting(FeedAll(AtStart, s))
  {
    NumberShape(s, SignLength(s));
    if s != "" {
      WordMatch(s[1..]);
      DigitsMatch(s[1..]);
      DeadStays(s[1..]);
      WordShape(s);
      if SignLength(s) == 1 && |s| > 1 {
        SignedMatch(s);
      }
    }
  }

  lemma WordShape(s: string)
    requires s != ""
    ensures IsWord(s) <==>
              In(s[0], Letter) && forall i :: 0 <= i < |s[1..]| ==> In(s[1..][i], Letter) || In(s[1..][i], Digit)
  {
    assert s == [s[0]] + s[1..];
  }

  lemma SignedMatch(s: string)
    requires SignLength(s) == 1 && |s| > 1
    ensures Accepting(FeedAll(AtStart, s)) <==> In(s[1], Digit) && DigitsThenLetters(s[2..])
  {
    assert s[1..][0] == s[1] && s[1..][1..] == s[2..];
    DigitsMatch(s[2..]);
    DeadStays(s[2..]);
  }

  /** A value is written as it is exactly when the expression matches it, and in quotes otherwise. */
  lemma WrittenPlainIff(s: string)
    ensures Accepting(FeedAll(AtStart, s)) ==> EscapeStr(s) == s
    ensures !Accepting(FeedAll(AtStart, s)) ==> |EscapeStr(s)| >= 2 && EscapeStr(s)[0] == EscapeStr(s)[|EscapeStr(s)| - 1] == '\''
  {
    UnquotedIsRegular(s);
  }

  // ---------------------------------------------------------------- Names

  lemma NameIsWord(s: string)
    requires IsId(s) || IsQualified(s)
    ensures s != "" && In(s[0], IdStart) && All(s, WordChar)
  {
    if !IsId(s) {
      var k :| 0 <= k < |s| && s[k] == '.' && IsId(s[..k]) && IsId(s[k + 1..]);
      assert s[..k][0] == s[0];
      forall i | 0 <= i < |s| ensures In(s[i], WordChar) {
        assert i < k ==> s[i] == s[..k][i];
        assert i > k ==> s[i] == s[k + 1..][i - k - 1];
      }
    }
  }

  lemma NameReadsBack(s: string, t: string)
    requires (IsId(s) || IsQualified(s)) && StartsWith(t, '=')
    ensures ReadName(s + t) == Token(s, t)
  {
    NameIsWord(s);
    SpanIs(s, t, WordChar);
  }

  lemma {:induction false} NameInLine(s: string)
    requires IsId(s) || IsQualified(s)
    ensures All(s, LineChar)
  {
    NameIsWord(s);
  }

  lemma LowerKeepsClass(c: char)
    ensures In(Lower(c), IdStart) <==> In(c, IdStart)
    ensures In(Lower(c), IdChar) <==> In(c, IdChar)
    ensures Lower(c) == '.' <==> c == '.'
    ensures Lower(Lower(c)) == Lower(c)
  {}

  lemma FoldKeepsId(s: string)
    ensures IsId(Fold(s)) <==> IsId(s)
  {
    forall i | 0 <= i < |s|
      ensures In(Fold(s)[i], IdChar) <==> In(s[i], IdChar)
      ensures In(Fold(s)[i], IdStart) <==> In(s[i], IdStart)
    {
      LowerKeepsClass(s[i]);
    }
    if IsId(Fold(s)) {
      forall i | 0 <= i < |s| ensures In(s[i], IdChar) {
        assert In(Fold(s)[i], IdChar);
      }
    }
  }

  lemma FoldKeepsQualified(s: string)
    ensures IsQualified(Fold(s)) <==> IsQualified(s)
  {
    forall k | 0 <= k < |s|
      ensures Fold(s)[k] == '.' && IsId(Fold(s)[..k]) && IsId(Fold(s)[k + 1..])
         <==> s[k] == '.' && IsId(s[..k]) && IsId(s[k + 1..])
    {
      LowerKeepsClass(s[k]);
      assert Fold(s)[..k] == Fold(s[..k]) && Fold(s)[k + 1..] == Fold(s[k + 1..]);
      FoldKeepsId(s[..k]);
      FoldKeepsId(s[k + 1..]);
    }
  }

  /** Folding keeps what is and what is not an option name. */
  lemma FoldKeepsNames(s: string)
    ensures OptionName(Fold(s)) <==> OptionName(s)
  {
    FoldKeepsId(s);
    FoldKeepsQualified(s);
    forall i | 0 <= i < |s| ensures Fold(Fold(s))[i] == Fold(s)[i] {
      LowerKeepsClass(s[i]);
    }
    assert Fold(Fold(s)) == Fold(s);
  }

  // ---------------------------------------------------------------- Lines

  lemma NoBlankToSkip(t: string)
    requires t == "" || !In(t[0], BlankChar)
    ensures SkipBlank(t) == t
  {
  }

  lemma SkipsEqual(v: string)
    requires v != "" && !In(v[0], BlankChar)
    ensures SkipEqual("=" + v) == v
  {
    NoBlankToSkip("=" + v);
    assert ("=" + v)[1..] == v;
    NoBlankToSkip(v);
  }

  lemma RestReadsBack(name: string, value: string)
    ensures ReadRest(name, "=" + EscapeStr(value))
         == if '\0' in value || IsDirective(name) then Bad else Setting(name, value)
  {
    ValueReadsBack(value);
    SkipsEqual(EscapeStr(value));
    NoBlankToSkip("");
  }

  lemma NamedLine(t: string, name: string, rest: string)
    requires t != "" && In(t[0], IdStart) && ReadName(t) == Token(name, rest)
    ensures ReadLine(t) == ReadRest(name, rest)
  {
    NoBlankToSkip(t);
  }

  lemma NamedSettingReadsBack(option: string, value: string)
    requires IsId(option) || IsQualified(option)
    ensures ReadLine(option + "=" + EscapeStr(value))
         == if '\0' in value || IsDirective(option) then Bad else Setting(option, value)
  {
    var t, r := option + "=" + EscapeStr(value), "=" + EscapeStr(value);
    NameIsWord(option);
    assert t == option + r;
    NameReadsBack(option, r);
    RestReadsBack(option, value);
    NamedLine(t, option, r);
  }

  lemma ReadSettingHasName(t: string)
    requires ReadLine(t).Setting?
    ensures OptionName(ReadLine(t).name)
  {}

  /** A setting reads back from its line exactly when it has an option name and no null character. */
  lemma SettingReadsBack(option: string, value: string)
    ensures ReadLine(option + "=" + EscapeStr(value)) == Setting(option, value)
       <==> OptionName(option) && '\0' !in value
  {
    var t := option + "=" + EscapeStr(value);
    if IsId(option) || IsQualified(option) {
      NamedSettingReadsBack(option, value);
    } else if ReadLine(t).Setting? {
      ReadSettingHasName(t);
    }
  }

  // ---------------------------------------------------------------- Whole files

  /** Extra lines are empty, or comments that end their line. */
  predicate Harmless(line: string) {
    line == "" || (line[0] == '#' && line[|line| - 1] == '\n' && All(line[..|line| - 1], LineChar))
  }

  predicate HarmlessLines(calls: seq<Call>) {
    forall i :: 0 <= i < |calls| && calls[i].ExtraLine? ==> Harmless(calls[i].line)
  }

  predicate NamesOptions(calls: seq<Call>) {
    forall i :: 0 <= i < |calls| && calls[i].SetOption? ==> OptionName(calls[i].option)
  }

  predicate Writable(call: Call) {
    call.SetOption? ==> '\0' !in call.value
  }

  predicate AllWritable(calls: seq<Call>) {
    forall i :: 0 <= i < |calls| ==> Writable(calls[i])
  }

  predicate CompleteLines(text: string) {
    text == "" || text[|text| - 1] == '\n'
  }

  function Update(settings: map<string, string>, e: Entry): map<string, string> {
    if e.Setting? then settings[Fold(e.name) := e.value] else settings
  }

  lemma ReadFileLine(text: string, n: nat, settings: map<string, string>)
    requires n < |text| && n == Span(text, LineChar)
    ensures ReadFile(text, settings) == if ReadLine(text[..n]).Bad? then Err(())
                                        else ReadFile(text[n + 1..], Update(settings, ReadLine(text[..n])))
  {}

  lemma ReadFirstLine(line: string, rest: string, settings: map<string, string>)
    requires All(line, LineChar)
    ensures ReadFile(line + ("\n" + rest), settings)
         == if ReadLine(line).Bad? then Err(()) else ReadFile(rest, Update(settings, ReadLine(line)))
  {
    var text := line + ("\n" + rest);
    SpanIs(line, "\n" + rest, LineChar);
    assert text[|line| + 1..] == rest;
    ReadFileLine(text, |line|, settings);
  }

  /** The first line of a text whose last line is complete. */
  lemma {:induction false} FirstLine(text: string) returns (line: string, rest: string)
    requires text != "" && CompleteLines(text)
    ensures text == line + ("\n" + rest) && All(line, LineChar)
    ensures CompleteLines(rest)
  {
    if text[0] == '\n' {
      line, rest := "", text[1..];
    } else {
      line, rest := FirstLine(text[1..]);
      line := [text[0]] + line;
    }
  }

  lemma AppendInRest(line: string, rest: string, more: string)
    ensures line + ("\n" + rest) + more == line + ("\n" + (rest + more))
  {
    assert ("\n" + rest) + more == "\n" + (rest + more);
  }

  /** Reading a text whose last line is complete, then more text. */
  lemma {:induction false} ReadFileAppend(text: string, more: string, settings: map<string, string>)
    requires CompleteLines(text) && ReadFile(text, settings).Ok?
    ensures ReadFile(text + more, settings) == ReadFile(more, ReadFile(text, settings).value)
    decreases |text|, 1
  {
    if text == "" {
      assert text + more == more;
    } else {
      var line, rest := FirstLine(text);
      ReadLineAppend(line, rest, more, settings);
    }
  }

  lemma {:induction false} ReadLineAppend(line: string, rest: string, more: string, settings: map<string, string>)
    requires All(line, LineChar) && CompleteLines(rest)
    requires ReadFile(line + ("\n" + rest), settings).Ok?
    ensures ReadFile(line + ("\n" + rest) + more, settings)
         == ReadFile(more, ReadFile(line + ("\n" + rest), settings).value)
    decreases |line| + 1 + |rest|, 0
  {
    AppendInRest(line, rest, more);
    ReadFirstLine(line, rest, settings);
    ReadFirstLine(line, rest + more, settings);
    ReadFileAppend(rest, more, Update(settings, ReadLine(line)));
  }

  lemma ReadOneLine(line: string, settings: map<string, string>)
    requires All(line, LineChar) && !ReadLine(line).Bad?
    ensures ReadFile(line + "\n", settings) == Ok(Update(settings, ReadLine(line)))
  {
    ReadFirstLine(line, "", settings);
    assert "\n" + "" == "\n";
  }

  lemma AllConcat(a: string, b: string, k: Class)
    requires All(a, k) && All(b, k)
    ensures All(a + b, k)
  {
  }

  lemma SettingInLine(option: string, value: string)
    requires OptionName(option)
    ensures All(option + "=" + EscapeStr(value), LineChar)
  {
    NameInLine(option);
    ValueReadsBack(value);
    AllConcat(option, "=", LineChar);
    AllConcat(option + "=", EscapeStr(value), LineChar);
  }

  lemma AppendReadsBack(option: string, value: string, settings: map<string, string>)
    requires OptionName(option) && '\0' !in value
    ensures ReadFile(SettingLine(option, value), settings) == Ok(settings[Fold(option) := value])
  {
    var line := option + "=" + EscapeStr(value);
    NamedSettingReadsBack(option, value);
    SettingInLine(option, value);
    ReadOneLine(line, settings);
  }

  lemma UnwritableFails(option: string, value: string, rest: string, settings: map<string, string>)
    requires OptionName(option) && '\0' in value
    ensures ReadFile(SettingLine(option, value) + rest, settings).Err?
  {
    var line := option + "=" + EscapeStr(value);
    NamedSettingReadsBack(option, value);
    SettingInLine(option, value);
    assert SettingLine(option, value) + rest == line + ("\n" + rest);
    ReadFirstLine(line, rest, settings);
  }

  lemma CommentReadsBack(line: string, settings: map<string, string>)
    requires All(line, LineChar) && StartsWith(line, '#')
    ensures ReadFile(line + "\n", settings) == Ok(settings)
  {
    NoBlankToSkip(line);
    ReadOneLine(line, settings);
  }

  /** The settings by folded name, which is how the server looks them up. */
  function Folded(calls: seq<Call>): map<string, string> {
    if calls == [] then map[] else
      var before, call := Folded(calls[..|calls| - 1]), calls[|calls| - 1];
      if call.SetOption? then before[Fold(call.option) := call.value] else before
  }

  lemma CallReadsBack(call: Call, settings: map<string, string>)
    requires call.SetOption? ==> OptionName(call.option) && '\0' !in call.value
    requires call.ExtraLine? ==> Harmless(call.line)
    ensures ReadFile(Line(call), settings)
         == Ok(if call.SetOption? then settings[Fold(call.option) := call.value] else settings)
    ensures CompleteLines(Line(call))
  {
    if call.SetOption? {
      AppendReadsBack(call.option, call.value, settings);
    } else if call.line != "" {
      var line := call.line[..|call.line| - 1];
      assert call.line == line + "\n";
      CommentReadsBack(line, settings);
    }
  }

  lemma {:induction false} LinesLength(calls: seq<Call>)
    ensures |Lines(calls)| == |calls|
  {
    if calls != [] {
      LinesLength(calls[..|calls| - 1]);
    }
  }

  lemma ConcatLast(calls: seq<Call>)
    requires calls != []
    ensures Concat(Lines(calls)) == Concat(Lines(calls[..|calls| - 1])) + Line(calls[|calls| - 1])
  {
    var before := Lines(calls[..|calls| - 1]);
    LinesLength(calls[..|calls| - 1]);
    assert Lines(calls)[..|before|] == before;
  }

  lemma {:induction false} CallsReadBack(calls: seq<Call>)
    requires HarmlessLines(calls) && NamesOptions(calls) && AllWritable(calls)
    ensures ReadFile(Concat(Lines(calls)), map[]) == Ok(Folded(calls))
    ensures CompleteLines(Concat(Lines(calls)))
  {
    if calls != [] {
      var n := |calls| - 1;
      assert Writable(calls[n]);
      CallsReadBack(calls[..n]);
      ConcatLast(calls);
      CallReadsBack(calls[n], Folded(calls[..n]));
      ReadFileAppend(Concat(Lines(calls[..n])), Line(calls[n]), map[]);
    }
  }

  lemma Regroup(a: string, b: string, c: string, d: string)
    ensures (a + (b + c)) + d == a + (b + (c + d))
  {}

  lemma {:induction false} SplitAt(calls: seq<Call>, i: nat) returns (rest: string)
    requires i < |calls|
    ensures Concat(Lines(calls)) == Concat(Lines(calls[..i])) + (Line(calls[i]) + rest)
    decreases |calls|
  {
    var n := |calls| - 1;
    ConcatLast(calls);
    if i == n {
      rest := "";
      assert Line(calls[i]) + "" == Line(calls[i]);
    } else {
      var middle := SplitAt(calls[..n], i);
      assert calls[..n][..i] == calls[..i];
      rest := middle + Line(calls[n]);
      Regroup(Concat(Lines(calls[..i])), Line(calls[i]), middle, Line(calls[n]));
    }
  }

  lemma GoodPrefix(calls: seq<Call>, i: nat)
    requires HarmlessLines(calls) && NamesOptions(calls) && i <= |calls|
    requires forall j :: 0 <= j < i ==> Writable(calls[j])
    ensures HarmlessLines(calls[..i]) && NamesOptions(calls[..i]) && AllWritable(calls[..i])
  {}

  /** A value with a null character makes the whole file unreadable. */
  lemma UnwritableBreaksFile(calls: seq<Call>, i: nat)
    requires HarmlessLines(calls) && NamesOptions(calls) && i < |calls| && !Writable(calls[i])
    requires forall j :: 0 <= j < i ==> Writable(calls[j])
    ensures ReadFile(Concat(Lines(calls)), map[]).Err?
  {
    GoodPrefix(calls, i);
    CallsReadBack(calls[..i]);
    var rest := SplitAt(calls, i);
    FailsAfter(Concat(Lines(calls[..i])), calls[i].option, calls[i].value, rest);
  }

  lemma FailsAfter(text: string, option: string, value: string, rest: string)
    requires CompleteLines(text) && ReadFile(text, map[]).Ok? && OptionName(option) && '\0' in value
    ensures ReadFile(text + (SettingLine(option, value) + rest), map[]).Err?
  {
    ReadFileAppend(text, SettingLine(option, value) + rest, map[]);
    UnwritableFails(option, value, rest, ReadFile(text, map[]).value);
  }

  lemma {:induction false} FirstUnwritable(calls: seq<Call>) returns (i: nat)
    requires !AllWritable(calls)
    ensures i < |calls| && !Writable(calls[i]) && forall j :: 0 <= j < i ==> Writable(calls[j])
  {
    var n := |calls| - 1;
    if AllWritable(calls[..n]) {
      i := n;
      forall j | 0 <= j < n ensures Writable(calls[j]) {
        assert calls[j] == calls[..n][j];
      }
    } else {
      i := FirstUnwritable(calls[..n]);
      forall j | 0 <= j < i ensures Writable(calls[j]) {
        assert calls[j] == calls[..n][j];
      }
    }
  }

  ghost predicate OptionKeys(settings: map<string, string>) {
    forall name :: name in settings ==> OptionName(name)
  }

  lemma {:induction false} ReadKeysAreOptions(text: string, settings: map<string, string>)
    requires ReadFile(text, settings).Ok? && OptionKeys(settings)
    ensures OptionKeys(ReadFile(text, settings).value)
    decreases |text|
  {
    if text != "" {
      var n := Span(text, LineChar);
      var rest := if n < |text| then text[n + 1..] else "";
      var e := ReadLine(text[..n]);
      if e.Setting? {
        ReadSettingHasName(text[..n]);
        FoldKeepsNames(e.name);
        ReadKeysAreOptions(rest, settings[Fold(e.name) := e.value]);
      } else {
        ReadKeysAreOptions(rest, settings);
      }
    }
  }

  lemma {:induction false} IndexHolds(calls: seq<Call>, i: nat)
    requires i < |calls| && calls[i].SetOption?
    ensures calls[i].option in Index(calls)
  {
    var n := |calls| - 1;
    if i < n {
      IndexHolds(calls[..n], i);
    }
  }

  /** Option `o` folds to `f` and has the value that the folded view gives `f`. */
  ghost predicate Witnesses(calls: seq<Call>, o: string, f: string) {
    o in Index(calls) && Fold(o) == f && f in Folded(calls) && Index(calls)[o] == Folded(calls)[f]
  }

  /** The folded view holds each folded name with the value of one of the options that fold to it. */
  lemma {:induction false} FoldedIsIndexed(calls: seq<Call>, f: string) returns (o: string)
    requires f in Folded(calls)
    ensures Witnesses(calls, o, f)
  {
    var pre, call := calls[..|calls| - 1], calls[|calls| - 1];
    if call.SetOption? && Fold(call.option) == f {
      o := call.option;
    } else {
      o := FoldedIsIndexed(pre, f);
    }
  }

  lemma {:induction false} IndexedIsFolded(calls: seq<Call>, o: string)
    requires o in Index(calls)
    ensures Fold(o) in Folded(calls)
  {
    var pre, call := calls[..|calls| - 1], calls[|calls| - 1];
    if !(call.SetOption? && call.option == o) {
      IndexedIsFolded(pre, o);
    }
  }

  /** What the file holds is what the index holds, for every appended option. */
  ghost predicate Agrees(file: Result<map<string, string>, ()>, index: map<string, string>) {
    && file.Ok?
    && (forall o :: o in index ==> Fold(o) in file.value && file.value[Fold(o)] == index[o])
    && (forall f :: f in file.value ==> exists o :: o in index && Fold(o) == f)
  }

  /** Options that differ only in case have one value. */
  ghost predicate CaseConsistent(index: map<string, string>) {
    forall o, p :: o in index && p in index && Fold(o) == Fold(p) ==> index[o] == index[p]
  }

  lemma FoldedAgreesIff(calls: seq<Call>)
    ensures Agrees(Ok(Folded(calls)), Index(calls)) <==> CaseConsistent(Index(calls))
  {
    var index, folded := Index(calls), Folded(calls);
    forall f | f in folded ensures exists o :: o in index && Fold(o) == f {
      var o := FoldedIsIndexed(calls, f);
      assert Witnesses(calls, o, f);
    }
    forall o | o in index ensures Fold(o) in folded {
      IndexedIsFolded(calls, o);
    }
    if CaseConsistent(index) {
      forall o | o in index ensures folded[Fold(o)] == index[o] {
        var p := FoldedIsIndexed(calls, Fold(o));
        assert Witnesses(calls, p, Fold(o));
      }
    }
  }

  lemma AgreeingFileIsGood(calls: seq<Call>)
    requires HarmlessLines(calls) && Agrees(ReadFile(Concat(Lines(calls)), map[]), Index(calls))
    ensures NamesOptions(calls) && AllWritable(calls)
  {
    ReadKeysAreOptions(Concat(Lines(calls)), map[]);
    forall i | 0 <= i < |calls| && calls[i].SetOption? ensures OptionName(calls[i].option) {
      IndexHolds(calls, i);
      FoldKeepsNames(calls[i].option);
    }
    if !AllWritable(calls) {
      var i := FirstUnwritable(calls);
      UnwritableBreaksFile(calls, i);
    }
  }

  /**
   For every sequence of calls whose extra lines are harmless: what the server reads from the
   displayed file is what `get` returns, for every appended option and whatever quotes, backslashes
   and newlines its value holds, if and only if every option has an option name, no value holds a
   null character, and options that differ only in case have one value.
   */
  lemma DisplayAgreesWithIndex(calls: seq<Call>)
    requires HarmlessLines(calls)
    ensures Agrees(ReadFile(Concat(Lines(calls)), map[]), Index(calls))
       <==> NamesOptions(calls) && AllWritable(calls) && CaseConsistent(Index(calls))
  {
    if Agrees(ReadFile(Concat(Lines(calls)), map[]), Index(calls)) {
      AgreeingFileIsGood(calls);
    }
    if NamesOptions(calls) && AllWritable(calls) {
      CallsReadBack(calls);
      FoldedAgreesIff(calls);
    }
  }

  lemma TwoCalls(a: Call, b: Call)
    ensures Concat(Lines([a, b])) == Line(a) + Line(b)
  {
    assert [a, b][..1] == [a] && [a][..0] == [];
    assert Lines([a]) == [Line(a)];
    assert Lines([a, b]) == [Line(a), Line(b)];
    assert [Line(a), Line(b)][..1] == [Line(a)] && [Line(a)][..0] == [];
    assert Concat([Line(a)]) == Line(a);
  }

  /** A comment that does not end its line swallows the setting after it. */
  lemma OpenCommentHidesSetting(option: string, value: string)
    requires OptionName(option)
    ensures var calls := [ExtraLine("#"), SetOption(option, value)];
            ReadFile(Concat(Lines(calls)), map[]) == Ok(map[]) && Index(calls) == map[option := value]
  {
    var a, b := ExtraLine("#"), SetOption(option, value);
    TwoCalls(a, b);
    SettingInLine(option, value);
    var line := "#" + (option + "=" + EscapeStr(value));
    AllConcat("#", option + "=" + EscapeStr(value), LineChar);
    assert Line(a) + Line(b) == line + "\n";
    CommentReadsBack(line, map[]);
    assert [a, b][..1] == [a] && Index([a]) == map[];
  }

  lemma OneSetting(o: string, x: string)
    ensures Folded([SetOption(o, x)]) == map[Fold(o) := x] && Index([SetOption(o, x)]) == map[o := x]
  {
    var a := SetOption(o, x);
    assert [a][..0] == [];
    assert Folded([]) == map[] && Index([]) == map[];
  }

  /** Two spellings of one name: the file ends with the last value, the index keeps both. */
  lemma CaseHidesSetting(o: string, p: string, x: string, y: string)
    requires OptionName(o) && OptionName(p) && o != p && Fold(o) == Fold(p)
    requires '\0' !in x && '\0' !in y
    ensures var calls := [SetOption(o, x), SetOption(p, y)];
            && ReadFile(Concat(Lines(calls)), map[]) == Ok(map[Fold(p) := y])
            && Index(calls) == map[o := x, p := y]
  {
    var a, b := SetOption(o, x), SetOption(p, y);
    assert [a, b][..1] == [a];
    OneSetting(o, x);
    assert Folded([a, b]) == map[Fold(p) := y];
    CallsReadBack([a, b]);
  }

  // ---------------------------------------------------------------- The configuration object

  class PostgresConf {
    var lines: seq<string>
    var hash: map<string, string>
    ghost var calls: seq<Call>

    ghost predicate Valid()
      reads this
    {
      lines == Lines(calls) && hash == Index(calls)
    }

    constructor ()
      ensures Valid() && calls == []
    {
      lines, hash, calls := [], map[], [];
    }

    method Append(option: string, value: string)
      requires Valid()
      modifies this
      ensures Valid() && calls == old(calls) + [SetOption(option, value)]
    {
      lines := lines + [option + "=" + EscapeStr(value) + "\n"];
      hash := hash[option := value];
      calls := calls + [SetOption(option, value)];
      assert calls[..|calls| - 1] == old(calls);
    }

    method AppendLine(line: string)
      requires Valid()
      modifies this
      ensures Valid() && calls == old(calls) + [ExtraLine(line)]
    {
      lines := lines + [line];
      calls := calls + [ExtraLine(line)];
      assert calls[..|calls| - 1] == old(calls);
    }

    /** What the server finds in the displayed file is what `get` returns. */
    method Get(option: string) returns (r: Option<string>)
      requires Valid()
      ensures r.Some? <==> option in Index(calls)
      ensures r.Some? ==> r.value == Index(calls)[option]
      ensures HarmlessLines(calls) && NamesOptions(calls) && AllWritable(calls) && CaseConsistent(Index(calls)) ==>
                var file := ReadFile(Concat(Lines(calls)), map[]);
                && file.Ok?
                && (r.Some? ==> Fold(option) in file.value && file.value[Fold(option)] == r.value)
                && (Fold(option) in file.value ==> exists o :: o in Index(calls) && Fold(o) == Fold(option))
    {
      if HarmlessLines(calls) {
        DisplayAgreesWithIndex(calls);
      }
      r := if option in hash then Some(hash[option]) else None;
    }

    method Display() returns (text: string)
      requires Valid()
      ensures text == Concat(Lines(calls))
    {
      text := "";
      for i := 0 to |lines|
        invariant text == Concat(lines[..i])
      {
        assert lines[..i + 1][..i] == lines[..i];
        text := text + lines[i];
      }
      assert lines[..|lines|] == lines;
    }
  }
}
