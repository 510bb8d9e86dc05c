/**
 Dollar quoting (section 4.1.2.4 of the PostgreSQL documentation): the tag search, a first-match
 reader of dollar-quoted text, and the procedure blocks into which quoted names are substituted.
 */
module DollarQuote {
  import opened Wrappers

  function Xs(k: nat): string {
    seq(k, _ => 'x')
  }

  predicate OccursAt(s: string, t: string, i: nat) {
    i + |t| <= |s| && s[i..i + |t|] == t
  }

  predicate Contains(s: string, t: string) {
    exists i: nat | i <= |s| :: OccursAt(s, t, i)
  }

  /** The length of the first tag, counting from `k`, that does not occur in `s`. */
  function TagLength(s: string, k: nat): nat
    requires k <= |s| + 1
    decreases |s| + 1 - k
  {
    if Contains(s, Xs(k)) then TagLength(s, k + 1) else k
  }

  function Wrap(tag: string, body: string): string {
    "$" + tag + "$" + body + "$" + tag + "$"
  }

  /** The tag search is minimal and stops at a tag at most one longer than the input. */
  method PgQuoteDollar(s: string) returns (escaped: string, outerTag: string)
    ensures var k := TagLength(s, 1);
            && 1 <= k <= |s| + 1
            && !Contains(s, Xs(k)) && (forall j :: 1 <= j < k ==> Contains(s, Xs(j)))
            && escaped == Wrap(Xs(k), s) && outerTag == Xs(k + 1)
  {
    var tag := "x";
    outerTag := "xx";
    ghost var k: nat := 1;
    assert Xs(1) == "x" && Xs(2) == "xx";
    while Contains(s, tag)
      invariant 1 <= k <= |s| + 1 && tag == Xs(k) && outerTag == Xs(k + 1)
      invariant forall j :: 1 <= j < k ==> Contains(s, Xs(j))
      invariant TagLength(s, 1) == TagLength(s, k)
      decreases |s| + 1 - k
    {
      tag := tag + "x";
      outerTag := tag + "x";
      k := k + 1;
      assert Xs(k) == tag && Xs(k + 1) == outerTag;
    }
    escaped := Wrap(tag, s);
  }

  // ---------------------------------------------------------------- Reader

  function FindFirst(s: string, t: string, i: nat): Option<nat>
    decreases |s| - i
  {
    if i > |s| then None
    else if OccursAt(s, t, i) then Some(i)
    else if i == |s| then None
    else FindFirst(s, t, i + 1)
  }

  predicate TagChar(c: char) {
    'a' <= c <= 'z' || 'A' <= c <= 'Z' || '0' <= c <= '9' || c == '_'
  }

  /** A tag is empty or an unquoted identifier without a dollar sign. */
  predicate IsTag(tag: string) {
    (tag != "" ==> !('0' <= tag[0] <= '9')) && forall i :: 0 <= i < |tag| ==> TagChar(tag[i])
  }

  /** The text up to the delimiter that ends at `e` occurring again, and the text after that. */
  function ReadUntil(s: string, e: nat): Option<(string, string)>
    requires e < |s|
  {
    match FindFirst(s, s[..e + 1], e + 1)
    case None => None
    case Some(j) =>
      if e + 1 <= j && j + e + 1 <= |s| then Some((s[e + 1..j], s[j + e + 1..])) else None
  }

  /** The contents of the dollar-quoted constant at the start of `s`, and the text after it. */
  function ReadDollar(s: string): Option<(string, string)> {
    if s == "" || s[0] != '$' then None
    else
      match FindFirst(s, "$", 1)
      case None => None
      case Some(e) => if 1 <= e < |s| && IsTag(s[1..e]) then ReadUntil(s, e) else None
  }

  lemma {:induction false} FindFirstIs(s: string, t: string, i: nat, j: nat)
    requires i <= j && OccursAt(s, t, j) && forall m: nat :: i <= m < j ==> !OccursAt(s, t, m)
    ensures FindFirst(s, t, i) == Some(j)
    decreases j - i
  {
    if i < j {
      FindFirstIs(s, t, i + 1, j);
    }
  }

  /** `m` consecutive x's from position `i`. */
  predicate Run(s: string, i: nat, m: nat) {
    i + m <= |s| && forall j :: i <= j < i + m ==> s[j] == 'x'
  }

  predicate NoRun(s: string, m: nat) {
    forall i: nat | i <= |s| :: !Run(s, i, m)
  }

  lemma NoRunIsNoTag(s: string, m: nat)
    ensures NoRun(s, m) <==> !Contains(s, Xs(m))
  {
    forall i: nat | i <= |s| ensures Run(s, i, m) <==> OccursAt(s, Xs(m), i) {
      if OccursAt(s, Xs(m), i) {
        forall j | i <= j < i + m ensures s[j] == 'x' {
          assert s[j] == s[i..i + m][j - i];
        }
      }
    }
  }

  /** A delimiter that starts inside the body has its tag inside the body. */
  lemma EarlyCloseIsRun(k: nat, body: string, rest: string, m: nat)
    requires k + 2 <= m < k + 2 + |body|
    requires OccursAt(Wrap(Xs(k), body) + rest, "$" + Xs(k) + "$", m)
    ensures Run(body, m - k - 1, k)
  {
    var s, delim, close := Wrap(Xs(k), body) + rest, "$" + Xs(k) + "$", k + 2 + |body|;
    assert s[close] == '$';
    forall j | 0 <= j < k + 2 ensures s[m + j] == delim[j] {
      assert s[m + j] == s[m..m + |delim|][j];
    }
    assert close < m + k + 2 ==> delim[close - m] == '$';
    forall j | m - k - 1 <= j < m - 1 ensures body[j] == 'x' {
      assert body[j] == s[j + k + 2] == delim[j + k + 2 - m];
    }
  }

  /** No closing delimiter starts inside the body: it would need the tag inside the body. */
  lemma NoEarlyClose(k: nat, body: string, rest: string, m: nat)
    requires NoRun(body, k) && k + 2 <= m < k + 2 + |body|
    ensures !OccursAt(Wrap(Xs(k), body) + rest, "$" + Xs(k) + "$", m)
  {
    if OccursAt(Wrap(Xs(k), body) + rest, "$" + Xs(k) + "$", m) {
      EarlyCloseIsRun(k, body, rest, m);
    }
  }

  lemma OpenEnds(k: nat, body: string, rest: string)
    ensures FindFirst(Wrap(Xs(k), body) + rest, "$", 1) == Some(k + 1)
  {
    var s := Wrap(Xs(k), body) + rest;
    forall m: nat | 1 <= m < k + 1 ensures !OccursAt(s, "$", m) {
      assert s[m] == 'x';
      assert s[m..m + 1] == [s[m]];
    }
    assert OccursAt(s, "$", k + 1) by {
      assert s[k + 1..k + 2] == [s[k + 1]];
    }
    FindFirstIs(s, "$", 1, k + 1);
  }

  lemma ClosesAtEnd(k: nat, body: string, rest: string)
    requires NoRun(body, k)
    ensures FindFirst(Wrap(Xs(k), body) + rest, "$" + Xs(k) + "$", k + 2) == Some(k + 2 + |body|)
  {
    var s, delim, close := Wrap(Xs(k), body) + rest, "$" + Xs(k) + "$", k + 2 + |body|;
    forall m: nat | k + 2 <= m < close ensures !OccursAt(s, delim, m) {
      NoEarlyClose(k, body, rest, m);
    }
    assert OccursAt(s, delim, close) by {
      assert s == ("$" + Xs(k) + "$" + body) + delim + rest;
    }
    FindFirstIs(s, delim, k + 2, close);
  }

  lemma WrapParts(k: nat, body: string, rest: string)
    ensures var s, close := Wrap(Xs(k), body) + rest, k + 2 + |body|;
            && |s| == close + k + 2 + |rest| && s[0] == '$'
            && s[1..k + 1] == Xs(k) && s[..k + 2] == "$" + Xs(k) + "$"
            && s[k + 2..close] == body && s[close + k + 2..] == rest
  {
    var s, delim := Wrap(Xs(k), body) + rest, "$" + Xs(k) + "$";
    assert s == delim + (body + delim + rest);
    assert s == (delim + body + delim) + rest;
  }

  /** A body without the tag reads back exactly, whatever it ends in and whatever follows. */
  lemma BodyReadsBack(k: nat, body: string, rest: string)
    requires 1 <= k && NoRun(body, k)
    ensures ReadDollar(Wrap(Xs(k), body) + rest) == Some((body, rest))
  {
    OpenEnds(k, body, rest);
    ClosesAtEnd(k, body, rest);
    WrapParts(k, body, rest);
    ReadAt(Wrap(Xs(k), body) + rest, k + 1, k + 2 + |body|);
  }

  lemma ReadAt(s: string, e: nat, j: nat)
    requires s != "" && s[0] == '$' && FindFirst(s, "$", 1) == Some(e) && 1 <= e < |s| && IsTag(s[1..e])
    requires FindFirst(s, s[..e + 1], e + 1) == Some(j) && e + 1 <= j && j + e + 1 <= |s|
    ensures ReadDollar(s) == Some((s[e + 1..j], s[j + e + 1..]))
  {
    UntilAt(s, e, j);
  }

  lemma UntilAt(s: string, e: nat, j: nat)
    requires e < |s| && FindFirst(s, s[..e + 1], e + 1) == Some(j) && e + 1 <= j && j + e + 1 <= |s|
    ensures ReadUntil(s, e) == Some((s[e + 1..j], s[j + e + 1..]))
  {}

  lemma {:induction false} TagLengthFree(s: string, k: nat)
    requires k <= |s| + 1
    ensures k <= TagLength(s, k) && NoRun(s, TagLength(s, k))
    decreases |s| + 1 - k
  {
    if Contains(s, Xs(k)) {
      TagLengthFree(s, k + 1);
    } else {
      NoRunIsNoTag(s, k);
    }
  }

  function Quoted(s: string): string {
    Wrap(Xs(TagLength(s, 1)), s)
  }

  /** The quoted text reads back as exactly the input, for every input. */
  lemma QuotedReadsBack(s: string, rest: string)
    ensures ReadDollar(Quoted(s) + rest) == Some((s, rest))
  {
    TagLengthFree(s, 1);
    BodyReadsBack(TagLength(s, 1), s, rest);
  }

  // ---------------------------------------------------------------- Procedure blocks

  /** A run that crosses a boundary has an x on both sides of it. */
  lemma NoRunAcross(a: string, b: string, m: nat)
    requires NoRun(a, m) && NoRun(b, m) && (a == "" || b == "" || a[|a| - 1] != 'x' || b[0] != 'x')
    ensures NoRun(a + b, m)
  {
    assert a != "" ==> (a + b)[|a| - 1] == a[|a| - 1];
    assert b != "" ==> (a + b)[|a|] == b[0];
    forall i: nat | i <= |a + b| ensures !Run(a + b, i, m) {
      if Run(a + b, i, m) {
        if i + m <= |a| {
          forall j | i <= j < i + m ensures a[j] == 'x' {
            assert a[j] == (a + b)[j];
          }
          assert Run(a, i, m);
        } else if |a| <= i {
          forall j | i - |a| <= j < i - |a| + m ensures b[j] == 'x' {
            assert b[j] == (a + b)[j + |a|];
          }
          assert Run(b, i - |a|, m);
        } else {
          assert false;
        }
      }
    }
  }

  lemma NoRunLonger(s: string, m: nat, n: nat)
    requires NoRun(s, m) && m <= n
    ensures NoRun(s, n)
  {
    forall i: nat | i <= |s| ensures !Run(s, i, n) {
      assert !Run(s, i, m);
    }
  }

  /** The outer tag, one longer than the inner, occurs nowhere in the quoted text. */
  lemma OuterTagAbsent(s: string)
    ensures NoRun(Quoted(s), TagLength(s, 1) + 1)
  {
    var k := TagLength(s, 1);
    TagLengthFree(s, 1);
    NoRunLonger(s, k, k + 1);
    var q := Quoted(s);
    NoRunAcross("$", Xs(k), k + 1);
    NoRunAcross("$" + Xs(k), "$", k + 1);
    NoRunAcross("$" + Xs(k) + "$", s, k + 1);
    NoRunAcross("$" + Xs(k) + "$" + s, "$", k + 1);
    NoRunAcross("$" + Xs(k) + "$" + s + "$", Xs(k), k + 1);
    NoRunAcross("$" + Xs(k) + "$" + s + "$" + Xs(k), "$", k + 1);
  }

  /** A template's fixed pieces with the quoted name between each two of them. */
  function Fill(pieces: seq<string>, quoted: string): string {
    if pieces == [] then ""
    else if |pieces| == 1 then pieces[0]
    else pieces[0] + quoted + Fill(pieces[1..], quoted)
  }

  predicate NoDoubleX(pieces: seq<string>) {
    forall i :: 0 <= i < |pieces| ==> NoRun(pieces[i], 2)
  }

  lemma {:induction false} FillHasNoOuterTag(pieces: seq<string>, s: string)
    requires NoDoubleX(pieces)
    ensures NoRun(Fill(pieces, Quoted(s)), TagLength(s, 1) + 1)
  {
    var m, q := TagLength(s, 1) + 1, Quoted(s);
    TagLengthFree(s, 1);
    if |pieces| >= 1 {
      NoRunLonger(pieces[0], 2, m);
    }
    if |pieces| >= 2 {
      OuterTagAbsent(s);
      FillHasNoOuterTag(pieces[1..], s);
      assert q[0] == '$' && q[|q| - 1] == '$';
      NoRunAcross(pieces[0], q, m);
      assert (pieces[0] + q)[|pieces[0] + q| - 1] == '$';
      NoRunAcross(pieces[0] + q, Fill(pieces[1..], q), m);
    }
  }

  /**
   A block quoted with the outer tag around any template without two adjacent x's reads back as
   the filled template, however many times the quoted name occurs in it.
   */
  lemma BlockReadsBack(pieces: seq<string>, s: string, rest: string)
    requires NoDoubleX(pieces)
    ensures var body := Fill(pieces, Quoted(s));
            ReadDollar(Wrap(Xs(TagLength(s, 1) + 1), body) + rest) == Some((body, rest))
  {
    var k, body := TagLength(s, 1) + 1, Fill(pieces, Quoted(s));
    assert NoRun(body, k) by {
      FillHasNoOuterTag(pieces, s);
    }
    BodyReadsBack(k, body, rest);
  }
}
