/** The tokenizer: a prioritised rule table applied left to right over the
    script text (pysamos/lexer.py). `NextStep` is one application of the rule
    table, `Scan` its repetition to the end of the text, and `Tokenize` the
    token loop that drives it. */
module Lexer {
  import opened Wrappers
  import opened Digits
  import opened Decimals
  import opened Ast
  import opened Seqs

  datatype TokenKind =
    | Kw(k: Keyword)
    | Id | Lbrace | Rbrace | Semi | Number | Equals | Newline

  /** Token kinds that do not start a command. */
  const LiteralTokens: seq<TokenKind> := [Id, Lbrace, Rbrace, Semi, Number, Equals, Newline]

  /** The token kinds of a keyword group, one per keyword, in the group's
      order. */
  function KeywordTokens(ks: seq<Keyword>): (r: seq<TokenKind>)
    ensures |r| == |ks|
    ensures forall i :: 0 <= i < |ks| ==> r[i] == Kw(ks[i])
    ensures forall x :: x in r <==> x.Kw? && x.k in ks
    ensures Distinct(ks) ==> Distinct(r)
  {
    if ks == [] then [] else [Kw(ks[0])] + KeywordTokens(ks[1..])
  }

  /** `tokens`: every token kind the lexer produces and the parser
      consumes, the literal tokens first, then the three keyword groups. */
  function AllTokens(): seq<TokenKind> {
    LiteralTokens + KeywordTokens(SimpleCmdTokens) + KeywordTokens(OptionsCmdTokens)
      + KeywordTokens(OtherTokens)
  }

  /** Every token kind is listed in `tokens`, and none twice. */
  lemma AllTokensOnce()
    ensures forall x: TokenKind :: x in AllTokens()
    ensures Distinct(AllTokens())
  {
    forall x: TokenKind ensures x in AllTokens() {
      TokenListed(x);
    }
    var lit, ks, ko, kn := LiteralTokens, KeywordTokens(SimpleCmdTokens),
      KeywordTokens(OptionsCmdTokens), KeywordTokens(OtherTokens);
    GroupsDistinct();
    LiteralsDistinct();
    GroupsDisjoint();
    KeywordTokensDisjoint(SimpleCmdTokens, OptionsCmdTokens);
    KeywordTokensDisjoint(SimpleCmdTokens, OtherTokens);
    KeywordTokensDisjoint(OptionsCmdTokens, OtherTokens);
    LiteralsNotKeywords(ks);
    DistinctAppend(lit, ks);
    LiteralsNotKeywords(ko);
    DisjointFromBoth(lit, ks, ko);
    DistinctAppend(lit + ks, ko);
    LiteralsNotKeywords(kn);
    DisjointFromBoth(lit, ks, kn);
    DisjointFromBoth(lit + ks, ko, kn);
    DistinctAppend(lit + ks + ko, kn);
  }

  /** No keyword belongs to two groups. */
  lemma GroupsDisjoint()
    ensures forall k :: k in SimpleCmdTokens ==> k !in OptionsCmdTokens
    ensures forall k :: k in SimpleCmdTokens ==> k !in OtherTokens
    ensures forall k :: k in OptionsCmdTokens ==> k !in OtherTokens
  {
    forall k | k in SimpleCmdTokens || k in OptionsCmdTokens
      ensures k in SimpleCmdTokens ==> k !in OptionsCmdTokens
      ensures k in SimpleCmdTokens ==> k !in OtherTokens
      ensures k in OptionsCmdTokens ==> k !in OtherTokens
    {
      KeywordGroups(k);
    }
  }

  lemma KeywordTokensDisjoint(a: seq<Keyword>, b: seq<Keyword>)
    requires forall k :: k in a ==> k !in b
    ensures forall x :: x in KeywordTokens(a) ==> x !in KeywordTokens(b)
  {
  }

  lemma LiteralsNotKeywords(kt: seq<TokenKind>)
    requires forall x :: x in kt ==> x.Kw?
    ensures forall x :: x in LiteralTokens ==> x !in kt
  {
  }

  lemma DisjointFromBoth<T>(a: seq<T>, b: seq<T>, c: seq<T>)
    requires forall x :: x in a ==> x !in c
    requires forall x :: x in b ==> x !in c
    ensures forall x :: x in a + b ==> x !in c
  {
  }

  lemma TokenListed(x: TokenKind)
    ensures x in LiteralTokens + KeywordTokens(SimpleCmdTokens) + KeywordTokens(OptionsCmdTokens)
      + KeywordTokens(OtherTokens)
  {
    var lit, ks, ko, kn := LiteralTokens, KeywordTokens(SimpleCmdTokens),
      KeywordTokens(OptionsCmdTokens), KeywordTokens(OtherTokens);
    if x.Kw? {
      KeywordGroups(x.k);
      if x.k in SimpleCmdTokens {
        assert x in ks;
        assert x in lit + ks;
      } else if x.k in OptionsCmdTokens {
        assert x in ko;
        assert x in lit + ks + ko;
      } else {
        assert x in kn;
      }
    } else {
      assert x in lit;
      assert x in lit + ks;
      assert x in lit + ks + ko;
    }
  }

  lemma LiteralsDistinct()
    ensures Distinct(LiteralTokens)
  {
  }

  /** A token's value is its matched text, except for NUMBER, whose value is
      the number it denotes. */
  datatype Lexeme = Text(s: string) | Numeric(d: Decimal)

  datatype Token = Token(kind: TokenKind, value: Lexeme, line: int, pos: nat)

  /** The keyword rules in the order they are defined, which is the order in
      which they are tried. */
  const KeywordRules: seq<Keyword> :=
    [Disable, Timestep, Messages, Config, Box, Input, ReadCellBoundary, Nlist, Constraint,
     PairPotential, PairParam, External, Population, Log, Dump, Integrator, Run]

  /** Where `^` matches in multi-line mode: at the start of the text or just
      after a newline. */
  predicate AtLineStart(t: string, i: nat) {
    i == 0 || (i <= |t| && t[i - 1] == '\n')
  }

  predicate StartsWith(t: string, i: nat, w: string) {
    i + |w| <= |t| && t[i..i + |w|] == w
  }

  /** The first rule of `rules` whose keyword text occurs at `i`. */
  function FirstKeyword(t: string, i: nat, rules: seq<Keyword>): (r: Option<Keyword>)
    ensures r.Some? ==> r.value in rules && StartsWith(t, i, KeywordText(r.value))
    ensures r.None? ==> forall k :: k in rules ==> !StartsWith(t, i, KeywordText(k))
  {
    if rules == [] then None
    else if StartsWith(t, i, KeywordText(rules[0])) then Some(rules[0])
    else FirstKeyword(t, i, rules[1..])
  }

  /** The keyword rule that matches at `i`, if any: `(?m)^keyword`. One
      matches exactly at a line start where some keyword is written, and it
      is the keyword written there. */
  function KeywordAt(t: string, i: nat): (r: Option<Keyword>)
    ensures r.Some? <==> AtLineStart(t, i) && exists k: Keyword :: StartsWith(t, i, KeywordText(k))
    ensures r.Some? ==> forall k: Keyword :: StartsWith(t, i, KeywordText(k)) <==> k == r.value
  {
    if AtLineStart(t, i) then
      EveryKeywordHasRule();
      KeywordsExclusive(t, i);
      FirstKeyword(t, i, KeywordRules)
    else None
  }

  /** The characters of `[a-zA-Z\-0-9\_\/\.]`. */
  predicate IsIdChar(c: char) {
    ('a' <= c <= 'z') || ('A' <= c <= 'Z') || IsDigit(c) || c == '-' || c == '_' || c == '/' || c == '.'
  }

  /** Length of the run of digits starting at `i`. */
  function DigitRun(t: string, i: nat): (n: nat)
    requires i <= |t|
    ensures i + n <= |t|
    ensures forall j :: i <= j < i + n ==> IsDigit(t[j])
    ensures i + n == |t| || !IsDigit(t[i + n])
    decreases |t| - i
  {
    if i < |t| && IsDigit(t[i]) then 1 + DigitRun(t, i + 1) else 0
  }

  /** Length of the run of identifier characters starting at `i`. */
  function IdRun(t: string, i: nat): (n: nat)
    requires i <= |t|
    ensures i + n <= |t|
    ensures forall j :: i <= j < i + n ==> IsIdChar(t[j])
    ensures i + n == |t| || !IsIdChar(t[i + n])
    decreases |t| - i
  {
    if i < |t| && IsIdChar(t[i]) then 1 + IdRun(t, i + 1) else 0
  }

  /** A match of `-?(\d+\.\d*|\d*\.\d+|\d+)`: its sign, the digits before
      and after the point, and its length. */
  datatype NumberMatch =
    | NoNumber
    | NumberMatch(neg: bool, intDigits: string, fracDigits: string, len: nat)

  /** The NUMBER rule at `i`. The alternatives are tried in order and each
      takes as many digits as it can. */
  function MatchNumber(t: string, i: nat): (m: NumberMatch)
    requires i <= |t|
    ensures m.NumberMatch? ==> 0 < m.len && i + m.len <= |t|
    ensures m.NumberMatch? ==> AllDigits(m.intDigits) && AllDigits(m.fracDigits)
    ensures m.NumberMatch? ==> forall j :: i <= j < i + m.len ==> IsIdChar(t[j])
  {
    var neg := i < |t| && t[i] == '-';
    var j := if neg then i + 1 else i;
    var k := j + DigitRun(t, j);
    var dot := k < |t| && t[k] == '.';
    if dot && (k > j || DigitRun(t, k + 1) > 0) then PointMatch(t, i, neg, j, k)
    else if k > j then NumberMatch(neg, t[j..k], "", k - i)
    else NoNumber
  }

  /** The alternatives with a point: the digits from `j` up to the point at
      `k` (none for `\d*\.\d+`), then every digit after it. */
  function PointMatch(t: string, i: nat, neg: bool, j: nat, k: nat): NumberMatch
    requires i <= j <= k < |t|
  {
    var e := k + 1 + DigitRun(t, k + 1);
    NumberMatch(neg, t[j..k], t[k + 1..e], e - i)
  }

  /** The end of the alternatives with a point: the last digit after the
      point. */
  lemma PointMatchEnd(t: string, p: nat, neg: bool, j: nat, m: nat, e: nat)
    requires p <= j <= m < |t| && m + 1 <= e <= |t| && DigitRun(t, m + 1) == e - (m + 1)
    ensures PointMatch(t, p, neg, j, m) == NumberMatch(neg, t[j..m], t[m + 1..e], e - p)
  {
  }

  /** Digits followed by a point select the alternatives with a point. */
  lemma PointMatchAt(t: string, p: nat, neg: bool, j: nat, m: nat)
    requires p < |t| && (t[p] == '-' <==> neg) && j == (if neg then p + 1 else p)
    requires j < m < |t| && DigitRun(t, j) == m - j && t[m] == '.'
    ensures MatchNumber(t, p) == PointMatch(t, p, neg, j, m)
  {
  }

  /** What the NUMBER rule matches. It matches exactly where a digit, or a
      point and a digit, follows the optional `-`. The match is the
      literal's own text: the sign, the digits before the point and, when
      there is one, the point and the digits after it. It is greedy: no
      digit follows it, and a match without a point is not followed by
      one. */
  lemma MatchNumberText(t: string, i: nat)
    requires i <= |t|
    ensures var j := if i < |t| && t[i] == '-' then i + 1 else i;
      MatchNumber(t, i).NumberMatch? <==>
        (j < |t| && IsDigit(t[j])) || (j + 1 < |t| && t[j] == '.' && IsDigit(t[j + 1]))
    ensures var m := MatchNumber(t, i);
      m.NumberMatch? ==>
        var sign := if m.neg then "-" else "";
        && (m.neg <==> t[i] == '-')
        && |m.intDigits| + |m.fracDigits| > 0
        && (|| t[i..i + m.len] == sign + m.intDigits + "." + m.fracDigits
            || (&& t[i..i + m.len] == sign + m.intDigits && m.fracDigits == []
                && (i + m.len == |t| || t[i + m.len] != '.')))
        && (i + m.len == |t| || !IsDigit(t[i + m.len]))
  {
    MatchNumberWhere(t, i);
    var neg := i < |t| && t[i] == '-';
    var j := if neg then i + 1 else i;
    var k := j + DigitRun(t, j);
    if k < |t| && t[k] == '.' && (k > j || DigitRun(t, k + 1) > 0) {
      PointCaseText(t, i, neg, j, k);
    } else if k > j {
      IntMatchText(t, i, neg, j, k);
    }
  }

  /** A match with a point is the sign, the digits, the point and the
      fractional digits, and no digit follows it. */
  lemma PointCaseText(t: string, i: nat, neg: bool, j: nat, k: nat)
    requires i < |t| && (neg <==> t[i] == '-') && j == (if neg then i + 1 else i)
    requires k == j + DigitRun(t, j) && k < |t| && t[k] == '.' && (k > j || DigitRun(t, k + 1) > 0)
    ensures var m := MatchNumber(t, i);
      && m.NumberMatch? && m.neg == neg
      && |m.intDigits| + |m.fracDigits| > 0
      && t[i..i + m.len] == (if neg then "-" else "") + m.intDigits + "." + m.fracDigits
      && (i + m.len == |t| || !IsDigit(t[i + m.len]))
  {
    var e := k + 1 + DigitRun(t, k + 1);
    PointMatchChosen(t, i, neg, j, k);
    PointMatchText(t, i, neg, j, k, e);
  }

  /** Where the NUMBER rule matches: a digit, or a point and a digit,
      after the optional `-`. */
  lemma MatchNumberWhere(t: string, i: nat)
    requires i <= |t|
    ensures var j := if i < |t| && t[i] == '-' then i + 1 else i;
      MatchNumber(t, i).NumberMatch? <==>
        (j < |t| && IsDigit(t[j])) || (j + 1 < |t| && t[j] == '.' && IsDigit(t[j + 1]))
  {
    var neg := i < |t| && t[i] == '-';
    var j := if neg then i + 1 else i;
    var k := j + DigitRun(t, j);
    if k == j && k < |t| && t[k] == '.' && DigitRun(t, k + 1) > 0 {
      assert IsDigit(t[k + 1]);
    }
  }

  /** The text of a match with a point, which ends at `e`. */
  lemma PointMatchText(t: string, i: nat, neg: bool, j: nat, k: nat, e: nat)
    requires i < |t| && (neg <==> t[i] == '-') && j == (if neg then i + 1 else i)
    requires j <= k < |t| && t[k] == '.' && (k > j || DigitRun(t, k + 1) > 0)
    requires e == k + 1 + DigitRun(t, k + 1)
    ensures PointMatch(t, i, neg, j, k) == NumberMatch(neg, t[j..k], t[k + 1..e], e - i)
    ensures |t[j..k]| + |t[k + 1..e]| > 0
    ensures t[i..e] == (if neg then "-" else "") + t[j..k] + "." + t[k + 1..e]
    ensures e == |t| || !IsDigit(t[e])
  {
    PointText(t, i, neg, j, k, e);
  }

  /** Under the conditions of `PointMatchText`, the NUMBER rule takes the
      alternatives with a point. */
  lemma PointMatchChosen(t: string, i: nat, neg: bool, j: nat, k: nat)
    requires i < |t| && (neg <==> t[i] == '-') && j == (if neg then i + 1 else i)
    requires k == j + DigitRun(t, j) && k < |t| && t[k] == '.' && (k > j || DigitRun(t, k + 1) > 0)
    ensures MatchNumber(t, i) == PointMatch(t, i, neg, j, k)
  {
  }

  lemma PointText(t: string, i: nat, neg: bool, j: nat, k: nat, e: nat)
    requires i < |t| && (neg <==> t[i] == '-') && j == (if neg then i + 1 else i)
    requires j <= k < |t| && t[k] == '.' && e == k + 1 + DigitRun(t, k + 1)
    ensures t[i..e] == (if neg then "-" else "") + t[j..k] + "." + t[k + 1..e]
  {
    var sign := if neg then "-" else "";
    assert t[i..j] == sign;
    assert t[k..e] == "." + t[k + 1..e];
    SliceSplit(t, j, k, e);
    SliceSplit(t, i, j, e);
    AppendAssoc(sign, t[j..k], "." + t[k + 1..e]);
    AppendAssoc(sign + t[j..k], ".", t[k + 1..e]);
  }

  lemma SliceSplit(t: string, i: nat, j: nat, k: nat)
    requires i <= j <= k <= |t|
    ensures t[i..k] == t[i..j] + t[j..k]
  {
  }

  /** The text of a match without a point. */
  lemma IntMatchText(t: string, i: nat, neg: bool, j: nat, k: nat)
    requires i < |t| && (neg <==> t[i] == '-') && j == (if neg then i + 1 else i)
    requires k == j + DigitRun(t, j) && k > j && !(k < |t| && t[k] == '.')
    ensures var m := MatchNumber(t, i);
      && m == NumberMatch(neg, t[j..k], "", k - i)
      && t[i..i + m.len] == (if neg then "-" else "") + m.intDigits
      && (i + m.len == |t| || (t[i + m.len] != '.' && !IsDigit(t[i + m.len])))
  {
    IntMatchChosen(t, i, neg, j, k);
    assert t[i..j] == if neg then "-" else "";
    SliceSplit(t, i, j, k);
  }

  /** Under the conditions of `IntMatchText`, the NUMBER rule takes the
      alternative without a point. */
  lemma IntMatchChosen(t: string, i: nat, neg: bool, j: nat, k: nat)
    requires i < |t| && (neg <==> t[i] == '-') && j == (if neg then i + 1 else i)
    requires k == j + DigitRun(t, j) && k > j && !(k < |t| && t[k] == '.')
    ensures MatchNumber(t, i) == NumberMatch(neg, t[j..k], "", k - i)
  {
  }

  /** The value of a NUMBER literal: an integer exactly when the literal is
      integral (`100.0` is `100`), else the decimal it denotes. */
  function NumberValue(neg: bool, intDigits: string, fracDigits: string): (d: Decimal)
    requires AllDigits(intDigits) && AllDigits(fracDigits)
    ensures Canonical(d)
  {
    var digits := intDigits + fracDigits;
    assert AllDigits(digits);
    var mag: int := DigitsValue(digits);
    Normalize(Decimal(if neg then -mag else mag, |fracDigits|))
  }

  /** Where a `#` comment that starts at `i` ends: at the next newline,
      which the comment does not include, or at the end of the text. */
  function CommentEnd(t: string, i: nat): (e: nat)
    requires i <= |t|
    ensures i <= e <= |t|
    ensures forall j :: i <= j < e ==> t[j] != '\n'
    ensures e == |t| || t[e] == '\n'
    decreases |t| - i
  {
    if i == |t| || t[i] == '\n' then i else CommentEnd(t, i + 1)
  }

  /** The outcome of one application of the rule table: the token produced,
      if any, the position after the match and the line counter. */
  datatype Step = Step(tok: Option<Token>, next: nat, line: int)

  function Punct(c: char, line: int, i: nat): Option<Token> {
    if c == '=' then Some(Token(Equals, Text("="), line, i))
    else if c == ';' then Some(Token(Semi, Text(";"), line, i))
    else if c == '{' then Some(Token(Lbrace, Text("{"), line, i))
    else if c == '}' then Some(Token(Rbrace, Text("}"), line, i))
    else None
  }

  /** One application of the rule table at position `i`: spaces and tabs are
      skipped; then the keyword rules, NUMBER, ID, NEWLINE, the comment rule
      and the punctuation rules are tried in this order; an unmatched
      character is skipped on its own. */
  function NextStep(t: string, i: nat, line: int): (s: Step)
    requires i < |t|
    ensures i < s.next <= |t|
    ensures s.tok.Some? ==> s.tok.value.pos == i && s.tok.value.line == line
  {
    if t[i] == ' ' || t[i] == '\t' then Step(None, i + 1, line)
    else match KeywordAt(t, i)
      case Some(k) => KeywordRule(k, i, line)
      case None => AfterKeywords(t, i, line)
  }

  /** The keyword rule for `k` at `i`. */
  function KeywordRule(k: Keyword, i: nat, line: int): Step {
    Step(Some(Token(Kw(k), Text(KeywordText(k)), line, i)), i + |KeywordText(k)|, line)
  }

  /** The rules after the keyword rules. NUMBER comes first: where it
      matches it wins over ID. An identifier character always starts a
      NUMBER or an ID token, and no other character does. */
  function AfterKeywords(t: string, i: nat, line: int): (s: Step)
    requires i < |t|
    ensures i < s.next <= |t|
    ensures s.tok.Some? ==> s.tok.value.pos == i && s.tok.value.line == line && !s.tok.value.kind.Kw?
    ensures MatchNumber(t, i).NumberMatch? ==>
      s.tok.Some? && s.tok.value.kind == Number && s.next == i + MatchNumber(t, i).len
    ensures IsIdChar(t[i]) <==> s.tok.Some? && (s.tok.value.kind == Number || s.tok.value.kind == Id)
  {
    var m := MatchNumber(t, i);
    if m.NumberMatch? then NumberRule(m, i, line)
    else if IsIdChar(t[i]) then IdRule(t, i, line)
    else AfterId(t, i, line)
  }

  /** The NUMBER rule, for a match at `i`. */
  function NumberRule(m: NumberMatch, i: nat, line: int): Step
    requires m.NumberMatch? && AllDigits(m.intDigits) && AllDigits(m.fracDigits)
  {
    Step(Some(Token(Number, Numeric(NumberValue(m.neg, m.intDigits, m.fracDigits)), line, i)), i + m.len, line)
  }

  /** The ID rule at `i`: the longest run of identifier characters, whose
      text is the token's value. */
  function IdRule(t: string, i: nat, line: int): (s: Step)
    requires i < |t| && IsIdChar(t[i])
    ensures i < s.next <= |t| && s.line == line
    ensures s.tok == Some(Token(Id, Text(t[i..s.next]), line, i))
    ensures forall j :: i <= j < s.next ==> IsIdChar(t[j])
    ensures s.next == |t| || !IsIdChar(t[s.next])
  {
    var n := IdRun(t, i);
    Step(Some(Token(Id, Text(t[i..i + n]), line, i)), i + n, line)
  }

  /** The rules after ID: NEWLINE, the comment, punctuation, and the error
      rule. A newline or a punctuation character is a one-character token
      whose value is that character, and only a newline bumps the line
      counter; a comment is skipped up to its newline and any other
      character on its own. */
  function AfterId(t: string, i: nat, line: int): (s: Step)
    requires i < |t|
    ensures i < s.next <= |t|
    ensures s.line == if t[i] == '\n' then line + 1 else line
    ensures s.tok.Some? <==> t[i] in "\n={};"
    ensures s.tok.Some? ==>
      && s.next == i + 1 && s.tok.value.value == Text([t[i]])
      && s.tok.value.pos == i && s.tok.value.line == line
      && (s.tok.value.kind == Newline <==> t[i] == '\n')
      && !s.tok.value.kind.Kw? && s.tok.value.kind != Id && s.tok.value.kind != Number
    ensures s.tok.None? ==> s.next == if t[i] == '#' then CommentEnd(t, i) else i + 1
  {
    var c := t[i];
    if c == '\n' then Step(Some(Token(Newline, Text("\n"), line, i)), i + 1, line + 1)
    else if c == '#' then Step(None, CommentEnd(t, i), line)
    else if Punct(c, line, i).Some? then Step(Punct(c, line, i), i + 1, line)
    else Step(None, i + 1, line)
  }

  function Emitted(s: Step): seq<Token> {
    match s.tok
    case Some(x) => [x]
    case None => []
  }

  /** The tokens of `t[i..]`, with the line counter at `line`: at most one
      per character, each standing in the scanned part of the text. */
  function Scan(t: string, i: nat, line: int): (r: seq<Token>)
    requires i <= |t|
    ensures |r| <= |t| - i
    ensures forall x :: x in r ==> i <= x.pos < |t|
    decreases |t| - i
  {
    if i == |t| then []
    else
      var s := NextStep(t, i, line);
      Emitted(s) + Scan(t, s.next, s.line)
  }

  /** The line counter after `line` has seen `t[i..]`. */
  function ScanLine(t: string, i: nat, line: int): int
    requires i <= |t|
    decreases |t| - i
  {
    if i == |t| then line
    else
      var s := NextStep(t, i, line);
      ScanLine(t, s.next, s.line)
  }

  /** The indices `j >= i` with `t[j] == '\n'`, in increasing order. */
  function NewlineIndices(t: string, i: nat): seq<nat>
    requires i <= |t|
    decreases |t| - i
  {
    if i == |t| then [] else (if t[i] == '\n' then [i] else []) + NewlineIndices(t, i + 1)
  }

  /** The number of newlines in `t[i..j]`. */
  function NewlinesIn(t: string, i: nat, j: nat): nat
    requires j <= |t|
    decreases j - i
  {
    if j <= i then 0 else (if t[i] == '\n' then 1 else 0) + NewlinesIn(t, i + 1, j)
  }

  /** The positions of the NEWLINE tokens of `toks`, in order. */
  function NewlinePositions(toks: seq<Token>): seq<nat> {
    if toks == [] then [] else
      (if toks[0].kind == Newline then [toks[0].pos] else []) + NewlinePositions(toks[1..])
  }

  /** `lex_file` without the file: the token loop over the whole text, with
      the lexer's line counter starting at `lineno` (the lexer object keeps
      its counter from one input to the next). */
  method Tokenize(text: string, lineno: int) returns (tokens: seq<Token>, line: int)
    ensures tokens == Scan(text, 0, lineno)
    ensures line == ScanLine(text, 0, lineno)
  {
    tokens, line := [], lineno;
    var pos := 0;
    while pos < |text|
      invariant pos <= |text|
      invariant tokens + Scan(text, pos, line) == Scan(text, 0, lineno)
      invariant ScanLine(text, pos, line) == ScanLine(text, 0, lineno)
      decreases |text| - pos
    {
      var step := NextStep(text, pos, line);
      ghost var rest := Scan(text, step.next, step.line);
      assert Scan(text, pos, line) == Emitted(step) + rest;
      assert ScanLine(text, pos, line) == ScanLine(text, step.next, step.line);
      ghost var before := tokens;
      tokens := tokens + Emitted(step);
      AppendAssoc(before, Emitted(step), rest);
      pos, line := step.next, step.line;
    }
  }

  // ----- Properties of the rule table -----

  /** No keyword text is a prefix of another: a shorter or equally long
      keyword text differs from any other one at index 0, 1, 2, 3 or 6. */
  lemma KeywordsDiffer(k1: Keyword, k2: Keyword)
    requires k1 != k2 && |KeywordText(k1)| <= |KeywordText(k2)|
    ensures var w1, w2 := KeywordText(k1), KeywordText(k2);
      || w1[0] != w2[0] || w1[1] != w2[1] || w1[2] != w2[2]
      || (|w1| > 3 && w1[3] != w2[3]) || (|w1| > 6 && w1[6] != w2[6])
  {
  }

  /** Keyword texts consist of identifier characters only. */
  lemma KeywordIdChars(k: Keyword)
    ensures forall j :: 0 <= j < |KeywordText(k)| ==> IsIdChar(KeywordText(k)[j])
    ensures 'a' <= KeywordText(k)[0] <= 'z'
  {
  }

  /** Whatever the rule order, the keyword rule that fires is the keyword
      written at `i`. */
  lemma {:induction false} KeywordRuleFound(t: string, i: nat, k: Keyword, rules: seq<Keyword>)
    requires k in rules && StartsWith(t, i, KeywordText(k))
    ensures FirstKeyword(t, i, rules) == Some(k)
  {
    if rules[0] != k {
      OtherKeywordAbsent(t, i, rules[0], k);
      KeywordRuleFound(t, i, k, rules[1..]);
    }
  }

  /** Where one keyword is written, no other keyword is. */
  lemma OtherKeywordAbsent(t: string, i: nat, k1: Keyword, k2: Keyword)
    requires k1 != k2 && StartsWith(t, i, KeywordText(k2))
    ensures !StartsWith(t, i, KeywordText(k1))
  {
    var w1, w2 := KeywordText(k1), KeywordText(k2);
    if |w1| <= |w2| {
      KeywordsDiffer(k1, k2);
      WordsClash(t, i, w1, w2);
    } else {
      KeywordsDiffer(k2, k1);
      WordsClash(t, i, w2, w1);
    }
  }

  /** A word that differs from a longer one at index 0, 1, 2, 3 or 6 is not
      written where the longer one is, nor the other way round. */
  lemma WordsClash(t: string, i: nat, a: string, b: string)
    requires 3 <= |a| <= |b|
    requires || a[0] != b[0] || a[1] != b[1] || a[2] != b[2]
      || (|a| > 3 && a[3] != b[3]) || (|a| > 6 && a[6] != b[6])
    ensures !(StartsWith(t, i, a) && StartsWith(t, i, b))
  {
    if a[0] != b[0] {
      PrefixClash(t, i, a, b, 0);
    } else if a[1] != b[1] {
      PrefixClash(t, i, a, b, 1);
    } else if a[2] != b[2] {
      PrefixClash(t, i, a, b, 2);
    } else if |a| > 3 && a[3] != b[3] {
      PrefixClash(t, i, a, b, 3);
    } else {
      PrefixClash(t, i, a, b, 6);
    }
  }

  /** Two words that differ at `x` are not both written at `i`. */
  lemma PrefixClash(t: string, i: nat, w1: string, w2: string, x: nat)
    requires x < |w1| && x < |w2| && w1[x] != w2[x]
    ensures !(StartsWith(t, i, w1) && StartsWith(t, i, w2))
  {
    if StartsWith(t, i, w2) {
      assert t[i..i + |w2|][x] == t[i + x];
    }
  }

  /** No keyword starts at a character other than a lower-case letter. */
  lemma NoKeywordAt(t: string, i: nat)
    requires i < |t| && !('a' <= t[i] <= 'z')
    ensures KeywordAt(t, i) == None
  {
    forall k: Keyword ensures !StartsWith(t, i, KeywordText(k)) {
      KeywordIdChars(k);
      if i + |KeywordText(k)| <= |t| {
        assert t[i..i + |KeywordText(k)|][0] == t[i];
      }
    }
  }

  // ----- One application of the rule table -----

  /** What one step emits and consumes: a token, if any, stands at `i` with
      the current line; a newline character becomes exactly one NEWLINE
      token and advances the line counter by one; any other step neither
      crosses a newline nor changes the line counter; a keyword token only
      appears where `^` matches and the keyword is written there. */
  lemma StepFacts(t: string, i: nat, line: int)
    requires i < |t|
    ensures var s := NextStep(t, i, line);
      && (s.tok.Some? ==> s.tok.value.pos == i && s.tok.value.line == line)
      && (s.tok.Some? ==> (s.tok.value.kind == Newline <==> t[i] == '\n'))
      && (s.tok.Some? && s.tok.value.kind.Kw? ==>
            var k := s.tok.value.kind.k;
            AtLineStart(t, i) && StartsWith(t, i, KeywordText(k))
            && s.tok.value.value == Text(KeywordText(k)) && s.next == i + |KeywordText(k)|)
      && (t[i] == '\n' ==> s == Step(Some(Token(Newline, Text("\n"), line, i)), i + 1, line + 1))
      && (t[i] != '\n' ==> s.line == line && forall j :: i <= j < s.next ==> t[j] != '\n')
  {
    StepToken(t, i, line);
    StepKeyword(t, i, line);
    if t[i] != '\n' {
      StepLine(t, i, line);
    }
  }

  lemma StepToken(t: string, i: nat, line: int)
    requires i < |t|
    ensures var s := NextStep(t, i, line);
      && (s.tok.Some? ==> s.tok.value.pos == i && s.tok.value.line == line)
      && (s.tok.Some? ==> (s.tok.value.kind == Newline <==> t[i] == '\n'))
      && (t[i] == '\n' ==> s == Step(Some(Token(Newline, Text("\n"), line, i)), i + 1, line + 1))
  {
    if t[i] == '\n' {
      NoKeywordAt(t, i);
    }
  }

  lemma StepKeyword(t: string, i: nat, line: int)
    requires i < |t|
    ensures var s := NextStep(t, i, line);
      s.tok.Some? && s.tok.value.kind.Kw? ==>
        var k := s.tok.value.kind.k;
        AtLineStart(t, i) && StartsWith(t, i, KeywordText(k))
        && s.tok.value.value == Text(KeywordText(k)) && s.next == i + |KeywordText(k)|
  {
  }

  lemma StepLine(t: string, i: nat, line: int)
    requires i < |t| && t[i] != '\n'
    ensures var s := NextStep(t, i, line);
      s.line == line && forall j :: i <= j < s.next ==> t[j] != '\n'
  {
    var s := NextStep(t, i, line);
    if t[i] != ' ' && t[i] != '\t' && KeywordAt(t, i).Some? {
      var k := KeywordAt(t, i).value;
      KeywordIdChars(k);
      var w := KeywordText(k);
      forall j | i <= j < s.next ensures t[j] != '\n' {
        assert t[j] == t[i..i + |w|][j - i] == w[j - i];
      }
    }
  }

  lemma {:induction false} NewlinesInSplit(t: string, i: nat, m: nat, j: nat)
    requires i <= m <= j <= |t|
    ensures NewlinesIn(t, i, j) == NewlinesIn(t, i, m) + NewlinesIn(t, m, j)
    decreases m - i
  {
    if i < m {
      NewlinesInSplit(t, i + 1, m, j);
    }
  }

  lemma {:induction false} NoNewlineBetween(t: string, i: nat, j: nat)
    requires i <= j <= |t|
    requires forall l :: i <= l < j ==> t[l] != '\n'
    ensures NewlinesIn(t, i, j) == 0
    ensures NewlineIndices(t, i) == NewlineIndices(t, j)
    decreases j - i
  {
    if i < j {
      NoNewlineBetween(t, i + 1, j);
    }
  }

  lemma {:induction false} NewlinePositionsAppend(a: seq<Token>, b: seq<Token>)
    ensures NewlinePositions(a + b) == NewlinePositions(a) + NewlinePositions(b)
  {
    if a == [] {
      assert a + b == b;
    } else {
      assert (a + b)[0] == a[0];
      assert (a + b)[1..] == a[1..] + b;
      NewlinePositionsAppend(a[1..], b);
      AppendAssoc(if a[0].kind == Newline then [a[0].pos] else [], NewlinePositions(a[1..]), NewlinePositions(b));
    }
  }

  // ----- Properties of the whole scan -----

  /** Every newline of the text yields exactly one NEWLINE token, at its own
      position and in order, and the line counter rises by one per newline. */
  lemma {:induction false} ScanNewlines(t: string, i: nat, line: int)
    requires i <= |t|
    ensures NewlinePositions(Scan(t, i, line)) == NewlineIndices(t, i)
    ensures ScanLine(t, i, line) == line + NewlinesIn(t, i, |t|)
    decreases |t| - i
  {
    if i < |t| {
      var s := NextStep(t, i, line);
      StepFacts(t, i, line);
      ScanNewlines(t, s.next, s.line);
      NewlinePositionsAppend(Emitted(s), Scan(t, s.next, s.line));
      NewlinesInSplit(t, i, s.next, |t|);
      if t[i] != '\n' {
        NoNewlineBetween(t, i, s.next);
      }
    }
  }

  /** The tokens come in scan order: positions strictly increase. */
  lemma {:induction false} ScanPositions(t: string, i: nat, line: int)
    requires i <= |t|
    ensures forall a, b :: 0 <= a < b < |Scan(t, i, line)| ==> Scan(t, i, line)[a].pos < Scan(t, i, line)[b].pos
    decreases |t| - i
  {
    if i < |t| {
      var s := NextStep(t, i, line);
      ScanPositions(t, s.next, s.line);
      IncreasingCons(Emitted(s), Scan(t, s.next, s.line), s.next);
    }
  }

  /** At most one token before later ones keeps positions increasing. */
  lemma IncreasingCons(e: seq<Token>, rest: seq<Token>, n: nat)
    requires |e| <= 1 && (forall x :: x in e ==> x.pos < n) && (forall x :: x in rest ==> n <= x.pos)
    requires forall a, b :: 0 <= a < b < |rest| ==> rest[a].pos < rest[b].pos
    ensures forall a, b :: 0 <= a < b < |e + rest| ==> (e + rest)[a].pos < (e + rest)[b].pos
  {
    var toks := e + rest;
    forall a, b | 0 <= a < b < |toks| ensures toks[a].pos < toks[b].pos {
      if |e| == 1 {
        assert toks[b] == rest[b - 1] && rest[b - 1] in rest;
        if a > 0 {
          assert toks[a] == rest[a - 1];
        } else {
          assert toks[a] == e[0] && e[0] in e;
        }
      }
    }
  }

  /** Each token carries the line counter plus the newlines before it, a
      NEWLINE token stands exactly on a newline, and a keyword token stands
      where `^` matches and its keyword is written. */
  lemma {:induction false} ScanTokens(t: string, i: nat, line: int)
    requires i <= |t|
    ensures forall x :: x in Scan(t, i, line) ==>
      && i <= x.pos < |t|
      && x.line == line + NewlinesIn(t, i, x.pos)
      && (x.kind == Newline <==> t[x.pos] == '\n')
      && (x.kind.Kw? ==> AtLineStart(t, x.pos) && StartsWith(t, x.pos, KeywordText(x.kind.k))
                           && x.value == Text(KeywordText(x.kind.k)))
    decreases |t| - i
  {
    ScanPositions(t, i, line);
    if i < |t| {
      var s := NextStep(t, i, line);
      StepFacts(t, i, line);
      ScanTokens(t, s.next, s.line);
      var rest := Scan(t, s.next, s.line);
      if t[i] != '\n' {
        NoNewlineBetween(t, i, s.next);
      }
      forall x | x in rest ensures x.line == line + NewlinesIn(t, i, x.pos) {
        NewlinesInSplit(t, i, s.next, x.pos);
      }
    }
  }

  // ----- Rule priority -----

  /** At the start of a line a keyword rule fires whenever its keyword is
      written there, before NUMBER and ID, even when more identifier
      characters follow (`running` lexes as RUN then `ning`). */
  lemma KeywordAtLineStart(t: string, i: nat, k: Keyword, line: int)
    requires i < |t| && AtLineStart(t, i) && StartsWith(t, i, KeywordText(k))
    ensures NextStep(t, i, line) == KeywordRule(k, i, line)
  {
    EveryKeywordHasRule();
    KeywordRuleFound(t, i, k, KeywordRules);
    KeywordFirstChar(t, i, k);
  }

  /** Every keyword has a rule. */
  lemma EveryKeywordHasRule()
    ensures forall k: Keyword :: k in KeywordRules
  {
    forall k: Keyword ensures k in KeywordRules {
      match k
      case Disable =>
      case Timestep =>
      case Messages =>
      case Config =>
      case Box =>
      case Input =>
      case ReadCellBoundary =>
      case Nlist =>
      case Constraint =>
      case PairPotential =>
      case PairParam =>
      case External =>
      case Population =>
      case Log =>
      case Dump =>
      case Integrator =>
      case Run =>
    }
  }

  /** At most one keyword is written at a position. */
  lemma KeywordsExclusive(t: string, i: nat)
    ensures forall k1: Keyword, k2: Keyword ::
      StartsWith(t, i, KeywordText(k1)) && StartsWith(t, i, KeywordText(k2)) ==> k1 == k2
  {
    forall k1: Keyword, k2: Keyword | StartsWith(t, i, KeywordText(k2)) && k1 != k2
      ensures !StartsWith(t, i, KeywordText(k1))
    {
      OtherKeywordAbsent(t, i, k1, k2);
    }
  }

  /** A written keyword starts with a lower-case letter. */
  lemma KeywordFirstChar(t: string, i: nat, k: Keyword)
    requires StartsWith(t, i, KeywordText(k))
    ensures i < |t| && 'a' <= t[i] <= 'z'
  {
    KeywordIdChars(k);
    assert t[i] == t[i..i + |KeywordText(k)|][0];
  }

  /** Away from the start of a line (for instance after leading spaces) a
      word is an ID, keyword or not. */
  lemma WordMidLine(t: string, i: nat, line: int)
    requires i < |t| && !AtLineStart(t, i)
    requires ('a' <= t[i] <= 'z') || ('A' <= t[i] <= 'Z') || t[i] == '_' || t[i] == '/'
    ensures NextStep(t, i, line) == IdRule(t, i, line)
  {
    NoNumberAtWord(t, i);
    WordAfterKeywords(t, i, line);
    PastKeywords(t, i, line);
  }

  /** When no keyword rule matches, the later rules decide. */
  lemma PastKeywords(t: string, i: nat, line: int)
    requires i < |t| && t[i] != ' ' && t[i] != '\t' && KeywordAt(t, i) == None
    ensures NextStep(t, i, line) == AfterKeywords(t, i, line)
  {
  }

  lemma NoNumberAtWord(t: string, i: nat)
    requires i < |t| && (('a' <= t[i] <= 'z') || ('A' <= t[i] <= 'Z') || t[i] == '_' || t[i] == '/')
    ensures MatchNumber(t, i) == NoNumber
  {
    assert DigitRun(t, i) == 0;
  }

  lemma WordAfterKeywords(t: string, i: nat, line: int)
    requires i < |t| && MatchNumber(t, i) == NoNumber && IsIdChar(t[i])
    ensures AfterKeywords(t, i, line) == IdRule(t, i, line)
  {
  }

  /** A digit, or `-` followed by a digit, starts a NUMBER token, never an
      ID. */
  lemma NumberBeforeId(t: string, i: nat, line: int)
    requires i < |t|
    requires IsDigit(t[i]) || (t[i] == '-' && i + 1 < |t| && IsDigit(t[i + 1]))
    ensures MatchNumber(t, i).NumberMatch?
    ensures NextStep(t, i, line) == NumberRule(MatchNumber(t, i), i, line)
  {
    NoKeywordAt(t, i);
  }

  predicate AllZeros(s: string) {
    forall j :: 0 <= j < |s| ==> s[j] == '0'
  }

  /** The value of a NUMBER literal is the number it denotes. */
  lemma NumberValueSame(neg: bool, intDigits: string, fracDigits: string)
    requires AllDigits(intDigits) && AllDigits(fracDigits)
    ensures AllDigits(intDigits + fracDigits)
    ensures var v: int := DigitsValue(intDigits + fracDigits);
      SameValue(NumberValue(neg, intDigits, fracDigits), Decimal(if neg then -v else v, |fracDigits|))
  {
    assert AllDigits(intDigits + fracDigits);
  }

  /** The value of a NUMBER literal is an integer (scale zero) exactly when
      every digit after the point is `0`: `100.0` becomes `100`. */
  lemma {:induction false} NumberValueIntegral(neg: bool, intDigits: string, fracDigits: string)
    requires AllDigits(intDigits) && AllDigits(fracDigits)
    ensures NumberValue(neg, intDigits, fracDigits).scale == 0 <==> AllZeros(fracDigits)
    decreases |fracDigits|
  {
    if fracDigits != [] {
      var n := |fracDigits|;
      var front, c := fracDigits[..n - 1], fracDigits[n - 1];
      assert fracDigits == front + [c];
      if c == '0' {
        TrailingZero(neg, intDigits, front);
        NumberValueIntegral(neg, intDigits, front);
        assert AllZeros(fracDigits) <==> AllZeros(front);
      } else {
        LastNonzero(neg, intDigits, front, c);
      }
    }
  }

  /** The value of a literal and its fractional digits split off at the
      last one. */
  lemma LastFracDigit(neg: bool, intDigits: string, front: string, c: char)
    requires AllDigits(intDigits) && AllDigits(front) && IsDigit(c)
    ensures AllDigits(front + [c])
    ensures var x: int := DigitsValue(intDigits + front);
      var y: int := if neg then -x else x;
      var m: int := if neg then -(x * 10 + DigitValue(c)) else x * 10 + DigitValue(c);
      && NumberValue(neg, intDigits, front + [c]) == Normalize(Decimal(m, |front| + 1))
      && NumberValue(neg, intDigits, front) == Normalize(Decimal(y, |front|))
      && (m % 10 == 0 <==> c == '0')
      && (c == '0' ==> m / 10 == y)
  {
    var fracDigits := front + [c];
    var digits := intDigits + fracDigits;
    assert AllDigits(digits);
    assert digits[..|digits| - 1] == intDigits + front;
    assert digits[|digits| - 1] == c;
    var x: int := DigitsValue(intDigits + front);
    assert DigitsValue(digits) == x * 10 + DigitValue(c);
    LastDigit(x, DigitValue(c), neg);
  }

  /** A trailing `0` after the point does not change the value. */
  lemma TrailingZero(neg: bool, intDigits: string, front: string)
    requires AllDigits(intDigits) && AllDigits(front)
    ensures AllDigits(front + ['0'])
    ensures NumberValue(neg, intDigits, front + ['0']) == NumberValue(neg, intDigits, front)
  {
    LastFracDigit(neg, intDigits, front, '0');
  }

  /** A last fractional digit other than `0` keeps every fractional digit. */
  lemma LastNonzero(neg: bool, intDigits: string, front: string, c: char)
    requires AllDigits(intDigits) && AllDigits(front) && IsDigit(c) && c != '0'
    ensures AllDigits(front + [c])
    ensures NumberValue(neg, intDigits, front + [c]).scale == |front| + 1
  {
    LastFracDigit(neg, intDigits, front, c);
  }

  lemma LastDigit(x: nat, d: nat, neg: bool)
    requires d < 10
    ensures var m: int := if neg then -(x * 10 + d) else x * 10 + d;
      && (m % 10 == 0 <==> d == 0)
      && (d == 0 ==> m / 10 == if neg then -(x as int) else x)
  {
  }

  // ----- What produces no token -----

  /** Spaces and tabs are skipped before any rule is tried. */
  lemma IgnoredChar(t: string, i: nat, line: int)
    requires i < |t| && (t[i] == ' ' || t[i] == '\t')
    ensures NextStep(t, i, line) == Step(None, i + 1, line)
    ensures Scan(t, i, line) == Scan(t, i + 1, line)
  {
  }

  /** A step that emits nothing leaves the rest of the scan as it is. */
  lemma ScanSilent(t: string, i: nat, line: int, n: nat, l: int)
    requires i < |t| && NextStep(t, i, line) == Step(None, n, l)
    ensures Scan(t, i, line) == Scan(t, n, l)
  {
    assert Emitted(NextStep(t, i, line)) == [];
  }

  /** A step that emits `x` puts it in front of the rest of the scan. */
  lemma ScanEmit(t: string, i: nat, line: int, x: Token, n: nat, l: int)
    requires i < |t| && NextStep(t, i, line) == Step(Some(x), n, l)
    ensures Scan(t, i, line) == [x] + Scan(t, n, l)
  {
    assert Emitted(NextStep(t, i, line)) == [x];
  }

  lemma CommentStep(t: string, i: nat, line: int, e: nat)
    requires i < |t| && t[i] == '#' && e == CommentEnd(t, i)
    ensures NextStep(t, i, line) == Step(None, e, line)
  {
    NoKeywordAt(t, i);
    PastKeywords(t, i, line);
    assert DigitRun(t, i) == 0;
    assert MatchNumber(t, i) == NoNumber;
  }

  lemma NewlineStep(t: string, i: nat, line: int, x: Token, n: nat, l: int)
    requires i < |t| && t[i] == '\n' && x == Token(Newline, Text("\n"), line, i) && n == i + 1 && l == line + 1
    ensures NextStep(t, i, line) == Step(Some(x), n, l)
  {
    NoKeywordAt(t, i);
    PastKeywords(t, i, line);
    assert DigitRun(t, i) == 0;
    assert MatchNumber(t, i) == NoNumber;
  }

  /** A comment runs up to the next newline and emits nothing. */
  lemma CommentSkipped(t: string, i: nat, line: int)
    requires i < |t| && t[i] == '#'
    ensures NextStep(t, i, line) == Step(None, CommentEnd(t, i), line)
    ensures Scan(t, i, line) == Scan(t, CommentEnd(t, i), line)
  {
    var e := CommentEnd(t, i);
    CommentStep(t, i, line, e);
    ScanSilent(t, i, line, e, line);
  }

  /** The newline that ends a comment is not part of it: it is scanned
      next and emits its NEWLINE token. */
  lemma CommentNewline(t: string, i: nat, line: int, e: nat, n: nat, l: int)
    requires i < |t| && t[i] == '#' && e == CommentEnd(t, i) && e < |t|
    requires n == e + 1 && l == line + 1
    ensures t[e] == '\n'
    ensures Scan(t, e, line) == [Token(Newline, Text("\n"), line, e)] + Scan(t, n, l)
  {
    var x := Token(Newline, Text("\n"), line, e);
    NewlineStep(t, e, line, x, n, l);
    ScanEmit(t, e, line, x, n, l);
  }

  /** A character no rule matches is skipped on its own and scanning
      continues with the next one. */
  lemma IllegalCharSkipped(t: string, i: nat, line: int)
    requires i < |t|
    requires !IsIdChar(t[i]) && t[i] !in " \t\n#=;{}"
    ensures NextStep(t, i, line) == Step(None, i + 1, line)
    ensures Scan(t, i, line) == Scan(t, i + 1, line)
  {
    var n := i + 1;
    IllegalCharStep(t, i, line, n);
    ScanSilent(t, i, line, n, line);
  }

  lemma IllegalCharStep(t: string, i: nat, line: int, n: nat)
    requires i < |t| && !IsIdChar(t[i]) && t[i] !in " \t\n#=;{}" && n == i + 1
    ensures NextStep(t, i, line) == Step(None, n, line)
  {
    NoKeywordAt(t, i);
    PastKeywords(t, i, line);
    assert DigitRun(t, i) == 0;
    assert MatchNumber(t, i) == NoNumber;
  }

  // ----- Token groups -----

  /** Every command keyword belongs to exactly one of the three groups. */
  lemma KeywordGroups(k: Keyword)
    ensures !(k in SimpleCmdTokens && k in OptionsCmdTokens)
    ensures !(k in SimpleCmdTokens && k in OtherTokens)
    ensures !(k in OptionsCmdTokens && k in OtherTokens)
    ensures k in SimpleCmdTokens || k in OptionsCmdTokens || k in OtherTokens
  {
  }

  /** No group lists a keyword twice. */
  lemma GroupsDistinct()
    ensures Distinct(SimpleCmdTokens) && Distinct(OptionsCmdTokens) && Distinct(OtherTokens)
  {
  }
}
