/** What the lexer makes of a rendered configuration. A well-formed
    configuration (every command in the shape the grammar gives it, every
    name and string an identifier the lexer reads back as one ID token,
    every number canonical) renders to a text whose tokens are exactly the
    symbols `ProgramSyms` lists: the keyword, the argument, the option set
    and a NEWLINE, command by command. */
module Rendered {
  import opened Wrappers
  import opened Digits
  import opened Decimals
  import opened Ast
  import opened Lexer
  import opened Parser
  import opened Generator
  import opened Seqs

  // ----- Well-formed configurations -----

  /** A string the lexer reads back as a single ID token when a character
      outside `[a-zA-Z\-0-9\_\/\.]` follows it: non-empty, made of identifier
      characters, and not the start of a NUMBER (no digit, and no `.` then a
      digit, right after an optional leading `-`). */
  predicate IsIdent(s: string) {
    && |s| > 0
    && (forall j :: 0 <= j < |s| ==> IsIdChar(s[j]))
    && var j := if s[0] == '-' then 1 else 0;
       && !(j < |s| && IsDigit(s[j]))
       && !(j + 1 < |s| && s[j] == '.' && IsDigit(s[j + 1]))
  }

  predicate ValueOk(v: Value) {
    match v
    case Str(s) => IsIdent(s)
    case Num(d) => Canonical(d)
    case Flag => true
  }

  predicate OptsOk(o: Opts) {
    forall i :: 0 <= i < |o| ==> IsIdent(o[i].0) && ValueOk(o[i].1)
  }

  predicate CommandOk(c: Command) {
    && Grammatical(c)
    && match c
       case Simple(_, a) => ValueOk(a)
       case WithOptions(_, a, o) => ValueOk(a) && OptsOk(o)
       case OptionsOnly(_, o) => OptsOk(o)
  }

  predicate WellFormed(cfg: Config) {
    forall i :: 0 <= i < |cfg| ==> CommandOk(cfg[i])
  }

  // ----- The symbols of a rendered configuration -----

  function KwSym(k: Keyword): Sym {
    Sym(Kw(k), Text(KeywordText(k)))
  }

  /** The kind of the token a punctuation character makes. */
  function PunctKind(c: char): TokenKind {
    if c == '=' then Equals else if c == ';' then Semi else if c == '{' then Lbrace else Rbrace
  }

  function PunctSym(c: char): Sym {
    Sym(PunctKind(c), Text([c]))
  }

  const NewlineSym: Sym := Sym(Newline, Text("\n"))
  const EqualsSym: Sym := PunctSym('=')
  const SemiSym: Sym := PunctSym(';')
  const LbraceSym: Sym := PunctSym('{')
  const RbraceSym: Sym := PunctSym('}')

  function ValueSyms(v: Value): seq<Sym> {
    match v
    case Str(s) => [Sym(Id, Text(s))]
    case Num(d) => [Sym(Number, Numeric(d))]
    case Flag => [Sym(Id, Text("True"))]
  }

  function EntrySyms(e: (string, Value)): seq<Sym> {
    if e.1 == Flag then [Sym(Id, Text(e.0))] else [Sym(Id, Text(e.0))] + [EqualsSym] + ValueSyms(e.1)
  }

  function ItemsSyms(o: Opts): seq<Sym> {
    if o == [] then []
    else if |o| == 1 then EntrySyms(o[0])
    else EntrySyms(o[0]) + [SemiSym] + ItemsSyms(o[1..])
  }

  function OptsSyms(o: Opts): seq<Sym> {
    [LbraceSym] + ItemsSyms(o) + [RbraceSym]
  }

  function CommandSyms(c: Command): seq<Sym> {
    match c
    case Simple(k, a) => [KwSym(k)] + ValueSyms(a)
    case WithOptions(k, a, o) => [KwSym(k)] + ValueSyms(a) + OptsSyms(o)
    case OptionsOnly(k, o) => [KwSym(k)] + OptsSyms(o)
  }

  function ProgramSyms(cfg: Config): seq<Sym> {
    if cfg == [] then [] else CommandSyms(cfg[0]) + [NewlineSym] + ProgramSyms(cfg[1..])
  }

  // ----- The rendered text -----

  /** A command in the shape the grammar gives it renders, in one of three
      layouts. */
  lemma RenderShape(c: Command)
    requires Grammatical(c)
    ensures GCommand(c).Some?
    ensures c.Simple? ==> GCommand(c).value == KeywordText(c.kind) + " " + ValueText(c.arg)
    ensures c.WithOptions? ==>
      GCommand(c).value == KeywordText(c.kind) + " " + ValueText(c.arg) + " " + OptsText(c.opts)
    ensures c.OptionsOnly? ==> GCommand(c).value == KeywordText(c.kind) + " " + OptsText(c.opts)
  {
    KeywordGroups(c.kind);
  }

  /** The line of a command in each of the three layouts, newline
      included. */
  function LineText(c: Command): (r: string)
    ensures |r| > 0 && r[|r| - 1] == '\n'
  {
    match c
    case Simple(k, a) => KeywordText(k) + " " + ValueText(a) + "\n"
    case WithOptions(k, a, o) => KeywordText(k) + " " + ValueText(a) + " " + OptsText(o) + "\n"
    case OptionsOnly(k, o) => KeywordText(k) + " " + OptsText(o) + "\n"
  }

  /** For a command in the shape the grammar gives it, that line is the
      line `write` puts in the file. */
  lemma LineIsGCommand(c: Command)
    requires Grammatical(c)
    ensures GCommand(c).Some? && LineText(c) == GCommand(c).value + "\n"
  {
    RenderShape(c);
  }

  function RenderedText(cfg: Config): string
    requires WellFormed(cfg)
  {
    if cfg == [] then "" else LineText(cfg[0]) + RenderedText(cfg[1..])
  }

  /** A well-formed configuration renders, line after line. */
  lemma {:induction false} RenderedIsWrite(cfg: Config)
    requires WellFormed(cfg)
    ensures Write(cfg) == Some(RenderedText(cfg))
  {
    if cfg != [] {
      RenderedIsWrite(cfg[1..]);
      WriteSingle(cfg[0]);
      WriteAppend([cfg[0]], cfg[1..]);
      assert [cfg[0]] + cfg[1..] == cfg;
      LineIsGCommand(cfg[0]);
    }
  }

  // ----- Lexing piece by piece -----

  /** The symbols the lexer produces from `t[p..]` with the line counter at
      `line`, one step of the lexer at a time. */
  function Lexed(t: string, p: nat, line: int): seq<Sym>
    requires p <= |t|
  {
    LexedRec(t, p, line)
  }

  /** The recursion behind `Lexed` goes through three functions, so that a
      proof unfolding it a level or two does not reach `NextStep`; only
      `LexedStep` mentions it. */
  function LexedRec(t: string, p: nat, line: int): seq<Sym>
    requires p <= |t|
    decreases |t| - p, 2
  {
    if p == |t| then [] else LexedFrom(t, p, line)
  }

  function LexedFrom(t: string, p: nat, line: int): seq<Sym>
    requires p < |t|
    decreases |t| - p, 1
  {
    LexedStep(t, p, line)
  }

  function LexedStep(t: string, p: nat, line: int): seq<Sym>
    requires p < |t|
    decreases |t| - p, 0
  {
    var s := NextStep(t, p, line);
    Syms(Emitted(s)) + LexedRec(t, s.next, s.line)
  }

  lemma {:induction false} SymsAppend(a: seq<Token>, b: seq<Token>)
    ensures Syms(a + b) == Syms(a) + Syms(b)
  {
    if a == [] {
      assert a + b == b;
    } else {
      assert (a + b)[0] == a[0];
      assert (a + b)[1..] == a[1..] + b;
      SymsAppend(a[1..], b);
      AppendAssoc([Sym(a[0].kind, a[0].value)], Syms(a[1..]), Syms(b));
    }
  }

  /** `Lexed` is what `Scan` produces. */
  lemma {:induction false} LexedIsScan(t: string, p: nat, line: int)
    requires p <= |t|
    ensures Lexed(t, p, line) == Syms(Scan(t, p, line))
    decreases |t| - p
  {
    if p < |t| {
      var s := NextStep(t, p, line);
      assert Lexed(t, p, line) == LexedRec(t, p, line) == LexedFrom(t, p, line) == LexedStep(t, p, line);
      LexedIsScan(t, s.next, s.line);
      SymsAppend(Emitted(s), Scan(t, s.next, s.line));
    }
  }

  lemma StartsWithAt(t: string, p: nat, w: string)
    ensures StartsWith(t, p, w) <==> p + |w| <= |t| && forall k :: 0 <= k < |w| ==> t[p + k] == w[k]
  {
    if p + |w| <= |t| && forall k :: 0 <= k < |w| ==> t[p + k] == w[k] {
      assert t[p..p + |w|] == w;
    }
  }

  /** `w` is written in `t` from position `p` on. */
  predicate TextAt(t: string, p: nat, w: string) {
    p + |w| <= |t| && CharsAt(t, p, w)
  }

  /** `TextAt` character by character, so that a proof sees one character
      at a time. */
  predicate CharsAt(t: string, p: nat, w: string)
    decreases w
  {
    if w == [] then p <= |t| else p < |t| && t[p] == w[0] && CharsAt(t, p + 1, w[1..])
  }

  lemma {:induction false} TextAtIndex(t: string, p: nat, w: string)
    ensures TextAt(t, p, w) <==> p + |w| <= |t| && forall k :: 0 <= k < |w| ==> t[p + k] == w[k]
    decreases w
  {
    if w != [] {
      TextAtIndex(t, p + 1, w[1..]);
      if p + |w| <= |t| && forall k :: 0 <= k < |w| ==> t[p + k] == w[k] {
        assert t[p] == w[0] by {
          assert t[p + 0] == w[0];
        }
        forall k | 0 <= k < |w| - 1 ensures t[p + 1 + k] == w[1..][k] {
          assert t[p + (k + 1)] == w[k + 1];
        }
      }
    }
  }

  lemma TextAtStartsWith(t: string, p: nat, w: string)
    ensures TextAt(t, p, w) <==> StartsWith(t, p, w)
  {
    TextAtIndex(t, p, w);
    StartsWithAt(t, p, w);
  }
  /** Positions inside the text are passed around as variables, each tied
      to its value by an equation in a `requires`, so that the solver meets
      every position in `Lexed` and `TextAt` as the same term. */
  lemma {:induction false} TextAtParts(t: string, p: nat, a: string, b: string, m: nat)
    requires TextAt(t, p, a + b) && m == p + |a|
    ensures TextAt(t, p, a) && TextAt(t, m, b)
    decreases a
  {
    if a == [] {
      assert a + b == b;
      TextAtIndex(t, p, b);
    } else {
      assert (a + b)[0] == a[0];
      assert (a + b)[1..] == a[1..] + b;
      TextAtParts(t, p + 1, a[1..], b, m);
    }
  }

  lemma TextAtFirst(t: string, p: nat, w: string)
    requires TextAt(t, p, w) && |w| > 0
    ensures p < |t| && t[p] == w[0]
  {
  }

  lemma TextAtSlice(t: string, p: nat, w: string, n: nat)
    requires TextAt(t, p, w) && n == p + |w|
    ensures t[p..n] == w
  {
    TextAtStartsWith(t, p, w);
  }

  /** A step that emits token `x` contributes its symbol and nothing else. */
  lemma EmitOne(t: string, p: nat, line: int, x: Token, y: Sym, next: nat, nline: int)
    requires p < |t| && NextStep(t, p, line) == Step(Some(x), next, nline)
    requires y == Sym(x.kind, x.value)
    ensures next <= |t|
    ensures Lexed(t, p, line) == [y] + Lexed(t, next, nline)
  {
    var s := NextStep(t, p, line);
    assert Emitted(s) == [x];
    assert Syms([x]) == [y] by {
      assert [x][1..] == [];
    }
    assert LexedStep(t, p, line) == [y] + LexedRec(t, next, nline);
    assert Lexed(t, p, line) == LexedRec(t, p, line) == LexedFrom(t, p, line);
  }

  lemma KeywordStep(t: string, p: nat, line: int, k: Keyword, x: Token, n: nat)
    requires p < |t| && AtLineStart(t, p) && TextAt(t, p, KeywordText(k))
    requires x == Token(Kw(k), Text(KeywordText(k)), line, p) && n == p + |KeywordText(k)|
    ensures NextStep(t, p, line) == Step(Some(x), n, line)
  {
    TextAtStartsWith(t, p, KeywordText(k));
    KeywordAtLineStart(t, p, k, line);
  }

  lemma KeywordPiece(t: string, p: nat, line: int, k: Keyword, q: nat)
    requires p < |t| && AtLineStart(t, p) && TextAt(t, p, KeywordText(k)) && q == p + |KeywordText(k)|
    ensures Lexed(t, p, line) == [KwSym(k)] + Lexed(t, q, line)
  {
    var x := Token(Kw(k), Text(KeywordText(k)), line, p);
    KeywordStep(t, p, line, k, x, q);
    EmitOne(t, p, line, x, KwSym(k), q, line);
  }

  lemma SpacePiece(t: string, p: nat, line: int, q: nat)
    requires p < |t| && t[p] == ' ' && q == p + 1
    ensures Lexed(t, p, line) == Lexed(t, q, line)
  {
    IgnoredChar(t, p, line);
    assert Lexed(t, p, line) == LexedRec(t, p, line) == LexedFrom(t, p, line) == LexedStep(t, p, line);
    assert Syms(Emitted(NextStep(t, p, line))) == [];
  }

  lemma NewlineStep(t: string, p: nat, line: int, x: Token, q: nat, nline: int)
    requires p < |t| && t[p] == '\n' && x == Token(Newline, Text("\n"), line, p)
    requires q == p + 1 && nline == line + 1
    ensures NextStep(t, p, line) == Step(Some(x), q, nline)
  {
    StepFacts(t, p, line);
  }

  lemma NewlinePiece(t: string, p: nat, line: int, q: nat, nline: int)
    requires p < |t| && t[p] == '\n' && q == p + 1 && nline == line + 1
    ensures Lexed(t, p, line) == [NewlineSym] + Lexed(t, q, nline)
  {
    var x := Token(Newline, Text("\n"), line, p);
    NewlineStep(t, p, line, x, q, nline);
    EmitOne(t, p, line, x, NewlineSym, q, nline);
  }

  lemma PunctStep(t: string, p: nat, line: int, c: char, x: Token, q: nat)
    requires p < |t| && t[p] == c && (c == '=' || c == ';' || c == '{' || c == '}')
    requires x == Token(PunctKind(c), Text([c]), line, p) && q == p + 1
    ensures NextStep(t, p, line) == Step(Some(x), q, line)
  {
    NoKeywordAt(t, p);
    assert DigitRun(t, p) == 0;
    assert MatchNumber(t, p) == NoNumber;
  }

  lemma PunctPiece(t: string, p: nat, line: int, c: char, q: nat)
    requires p < |t| && t[p] == c && (c == '=' || c == ';' || c == '{' || c == '}') && q == p + 1
    ensures Lexed(t, p, line) == [PunctSym(c)] + Lexed(t, q, line)
  {
    var x := Token(PunctKind(c), Text([c]), line, p);
    PunctStep(t, p, line, c, x, q);
    EmitOne(t, p, line, x, PunctSym(c), q, line);
  }

  /** `w` made of identifier characters is one whole ID run. */
  lemma {:induction false} IdRunExact(t: string, i: nat, w: string, n: nat)
    requires TextAt(t, i, w) && (forall j :: 0 <= j < |w| ==> IsIdChar(w[j]))
    requires n == i + |w| && (n == |t| || !IsIdChar(t[n]))
    ensures IdRun(t, i) == |w|
    decreases w
  {
    if w != [] {
      assert forall j :: 0 <= j < |w| - 1 ==> w[1..][j] == w[j + 1];
      IdRunExact(t, i + 1, w[1..], n);
    }
  }

  /** `w` made of digits is one whole digit run. */
  lemma {:induction false} DigitRunExact(t: string, i: nat, w: string, n: nat)
    requires TextAt(t, i, w) && AllDigits(w)
    requires n == i + |w| && (n == |t| || !IsDigit(t[n]))
    ensures DigitRun(t, i) == |w|
    decreases w
  {
    if w != [] {
      assert forall j :: 0 <= j < |w| - 1 ==> w[1..][j] == w[j + 1];
      DigitRunExact(t, i + 1, w[1..], n);
    }
  }

  /** NUMBER does not match at the start of an identifier. */
  lemma NoNumberAtIdent(t: string, p: nat, s: string, n: nat)
    requires IsIdent(s) && TextAt(t, p, s) && n == p + |s| && n < |t| && !IsIdChar(t[n])
    ensures MatchNumber(t, p) == NoNumber
  {
    TextAtIndex(t, p, s);
    var j0 := if s[0] == '-' then 1 else 0;
    var j := p + j0;
    assert t[p] == s[0];
    assert !IsDigit(t[j]) by {
      if j0 < |s| {
        assert t[j] == s[j0];
      }
    }
    assert DigitRun(t, j) == 0;
    if t[j] == '.' {
      assert j0 < |s|;
      assert !IsDigit(t[j + 1]) by {
        if j0 + 1 < |s| {
          assert t[j + 1] == s[j0 + 1];
        }
      }
      assert DigitRun(t, j + 1) == 0;
    }
  }

  lemma IdentStep(t: string, p: nat, line: int, s: string, x: Token, n: nat)
    requires IsIdent(s) && TextAt(t, p, s) && n == p + |s| && n < |t| && !IsIdChar(t[n])
    requires !AtLineStart(t, p) && x == Token(Id, Text(s), line, p)
    ensures NextStep(t, p, line) == Step(Some(x), n, line)
  {
    IdRunExact(t, p, s, n);
    TextAtFirst(t, p, s);
    TextAtSlice(t, p, s, n);
    NoNumberAtIdent(t, p, s, n);
  }

  lemma IdentPiece(t: string, p: nat, line: int, s: string, q: nat)
    requires IsIdent(s) && TextAt(t, p, s) && q == p + |s| && q < |t| && !IsIdChar(t[q])
    requires !AtLineStart(t, p)
    ensures Lexed(t, p, line) == [Sym(Id, Text(s))] + Lexed(t, q, line)
  {
    var x := Token(Id, Text(s), line, p);
    IdentStep(t, p, line, s, x, q);
    EmitOne(t, p, line, x, Sym(Id, Text(s)), q, line);
  }

  /** The digits before and after the point in the text of a number. */
  function IntDigits(d: Decimal): string {
    if d.scale == 0 then NatText(Abs(d.mant)) else NatText(SplitFraction(Abs(d.mant), d.scale).0)
  }

  function FracDigits(d: Decimal): string {
    if d.scale == 0 then "" else PadLeft(NatText(SplitFraction(Abs(d.mant), d.scale).1), d.scale)
  }

  function SignText(neg: bool): string {
    if neg then "-" else ""
  }

  /** The text of a number is its sign, its integer digits and, unless it
      is integral, a point and exactly `scale` fractional digits; read back
      as a NUMBER literal, those digits give the number again. */
  lemma DecimalTextParts(d: Decimal)
    requires Canonical(d)
    ensures AllDigits(IntDigits(d)) && |IntDigits(d)| > 0 && AllDigits(FracDigits(d))
    ensures d.scale == 0 ==> DecimalText(d) == SignText(d.mant < 0) + IntDigits(d)
    ensures d.scale > 0 ==> DecimalText(d) == SignText(d.mant < 0) + IntDigits(d) + "." + FracDigits(d)
    ensures NumberValue(d.mant < 0, IntDigits(d), FracDigits(d)) == d
  {
    var a := Abs(d.mant);
    if d.scale == 0 {
      NatTextValue(a);
      assert IntDigits(d) + FracDigits(d) == IntDigits(d);
    } else {
      FractionDigits(d);
    }
  }

  /** The sign of a literal is there exactly when it is negative. */
  lemma SignAt(t: string, p: nat, neg: bool, ds: string, j: nat)
    requires TextAt(t, p, SignText(neg) + ds) && |ds| > 0 && AllDigits(ds) && j == p + |SignText(neg)|
    ensures TextAt(t, j, ds) && p < |t|
    ensures t[p] == '-' <==> neg
    ensures t[p] == '-' || IsDigit(t[p])
  {
    TextAtParts(t, p, SignText(neg), ds, j);
    if neg {
      TextAtFirst(t, p, SignText(neg));
    } else {
      TextAtFirst(t, j, ds);
    }
  }

  /** NUMBER matches an integer literal up to its last digit. */
  lemma MatchIntText(t: string, p: nat, neg: bool, ds: string, n: nat)
    requires AllDigits(ds) && |ds| > 0 && TextAt(t, p, SignText(neg) + ds)
    requires n == p + |SignText(neg) + ds| && n < |t| && !IsIdChar(t[n])
    ensures MatchNumber(t, p) == NumberMatch(neg, ds, "", n - p)
    ensures t[p] == '-' || IsDigit(t[p])
  {
    var j := p + |SignText(neg)|;
    SignAt(t, p, neg, ds, j);
    DigitRunExact(t, j, ds, n);
    TextAtSlice(t, j, ds, n);
  }

  /** NUMBER matches a literal with a point up to its last fractional
      digit. */
  lemma MatchFracText(t: string, p: nat, neg: bool, ds: string, fs: string, n: nat)
    requires AllDigits(ds) && AllDigits(fs) && |ds| > 0
    requires TextAt(t, p, SignText(neg) + ds + "." + fs)
    requires n == p + |SignText(neg) + ds + "." + fs| && n < |t| && !IsIdChar(t[n])
    ensures MatchNumber(t, p) == NumberMatch(neg, ds, fs, n - p)
    ensures t[p] == '-' || IsDigit(t[p])
  {
    var j := p + |SignText(neg)|;
    var m := j + |ds|;
    var f := m + 1;
    TextAtParts(t, p, SignText(neg) + ds + ".", fs, f);
    TextAtParts(t, p, SignText(neg) + ds, ".", m);
    TextAtFirst(t, m, ".");
    SignAt(t, p, neg, ds, j);
    DigitRunExact(t, j, ds, m);
    DigitRunExact(t, f, fs, n);
    TextAtSlice(t, j, ds, m);
    TextAtSlice(t, f, fs, n);
    PointMatchAt(t, p, neg, j, m);
    PointMatchEnd(t, p, neg, j, m, n);
  }

  /** NUMBER reads the text of a canonical number back as that number. */
  lemma MatchDecimal(t: string, p: nat, d: Decimal, n: nat)
    requires Canonical(d) && TextAt(t, p, DecimalText(d))
    requires n == p + |DecimalText(d)| && n < |t| && !IsIdChar(t[n])
    ensures MatchNumber(t, p) == NumberMatch(d.mant < 0, IntDigits(d), FracDigits(d), n - p)
    ensures NumberValue(d.mant < 0, IntDigits(d), FracDigits(d)) == d
    ensures t[p] == '-' || IsDigit(t[p])
  {
    DecimalTextParts(d);
    if d.scale == 0 {
      MatchIntText(t, p, d.mant < 0, IntDigits(d), n);
    } else {
      MatchFracText(t, p, d.mant < 0, IntDigits(d), FracDigits(d), n);
    }
  }

  lemma NumberStep(t: string, p: nat, line: int, d: Decimal, x: Token, n: nat)
    requires Canonical(d) && TextAt(t, p, DecimalText(d))
    requires n == p + |DecimalText(d)| && n < |t| && !IsIdChar(t[n])
    requires x == Token(Number, Numeric(d), line, p)
    ensures NextStep(t, p, line) == Step(Some(x), n, line)
  {
    MatchDecimal(t, p, d, n);
    NoKeywordAt(t, p);
  }

  lemma NumberPiece(t: string, p: nat, line: int, d: Decimal, q: nat)
    requires Canonical(d) && TextAt(t, p, DecimalText(d))
    requires q == p + |DecimalText(d)| && q < |t| && !IsIdChar(t[q])
    ensures Lexed(t, p, line) == [Sym(Number, Numeric(d))] + Lexed(t, q, line)
  {
    var x := Token(Number, Numeric(d), line, p);
    NumberStep(t, p, line, d, x, q);
    EmitOne(t, p, line, x, Sym(Number, Numeric(d)), q, line);
  }

  lemma ValuePiece(t: string, p: nat, line: int, v: Value, q: nat)
    requires ValueOk(v) && TextAt(t, p, ValueText(v))
    requires q == p + |ValueText(v)| && q < |t| && !IsIdChar(t[q])
    requires !AtLineStart(t, p)
    ensures Lexed(t, p, line) == ValueSyms(v) + Lexed(t, q, line)
  {
    match v
    case Str(s) => IdentPiece(t, p, line, s, q);
    case Num(d) => NumberPiece(t, p, line, d, q);
    case Flag => IdentPiece(t, p, line, "True", q);
  }

  /** Chaining pieces of a scan. */
  lemma ThenSkip(a: seq<Sym>, l1: seq<Sym>, l2: seq<Sym>, l3: seq<Sym>)
    requires l1 == a + l2
    requires l2 == l3
    ensures l1 == a + l3
  {
  }

  lemma Then(a: seq<Sym>, b: seq<Sym>, l1: seq<Sym>, l2: seq<Sym>, l3: seq<Sym>)
    requires l1 == a + l2 && l2 == b + l3
    ensures l1 == (a + b) + l3
  {
    AppendAssoc(a, b, l3);
  }

  lemma Then3(a: seq<Sym>, b: seq<Sym>, c: seq<Sym>, l1: seq<Sym>, l2: seq<Sym>, l3: seq<Sym>, l4: seq<Sym>)
    requires l1 == a + l2 && l2 == b + l3 && l3 == c + l4
    ensures l1 == (a + b + c) + l4
  {
    Then(b, c, l2, l3, l4);
    Then(a, b + c, l1, l2, l4);
    AppendAssoc(a, b, c);
  }

  lemma Then4(a: seq<Sym>, b: seq<Sym>, c: seq<Sym>, d: seq<Sym>,
              l1: seq<Sym>, l2: seq<Sym>, l3: seq<Sym>, l4: seq<Sym>, l5: seq<Sym>)
    requires l1 == a + l2 && l2 == b + l3 && l3 == c + l4 && l4 == d + l5
    ensures l1 == (a + b + c + d) + l5
  {
    Then3(a, b, c, l1, l2, l3, l4);
    Then(a + b + c, d, l1, l4, l5);
  }

  /** The character before position `q` is not a newline, so `q` is not at
      the start of a line. */
  lemma MidLine(t: string, m: nat, q: nat)
    requires m < |t| && t[m] != '\n' && q == m + 1
    ensures !AtLineStart(t, q)
  {
  }

  lemma EntryPiece(t: string, p: nat, line: int, e: (string, Value), q: nat)
    requires IsIdent(e.0) && ValueOk(e.1) && TextAt(t, p, EntryText(e))
    requires q == p + |EntryText(e)| && q < |t| && !IsIdChar(t[q])
    requires !AtLineStart(t, p)
    ensures Lexed(t, p, line) == EntrySyms(e) + Lexed(t, q, line)
  {
    if e.1 == Flag {
      IdentPiece(t, p, line, e.0, q);
    } else {
      var k, vt := e.0, ValueText(e.1);
      var m := p + |k|;
      var r := m + 1;
      TextAtParts(t, p, k + "=", vt, r);
      TextAtParts(t, p, k, "=", m);
      TextAtFirst(t, m, "=");
      MidLine(t, m, r);
      IdentPiece(t, p, line, k, m);
      PunctPiece(t, m, line, '=', r);
      ValuePiece(t, r, line, e.1, q);
      Then3([Sym(Id, Text(k))], [EqualsSym], ValueSyms(e.1),
        Lexed(t, p, line), Lexed(t, m, line), Lexed(t, r, line), Lexed(t, q, line));
    }
  }

  /** The text of two or more entries: the first, `;`, the others. */
  lemma ItemsLayout(t: string, p: nat, o: Opts, m: nat, r: nat)
    requires |o| > 1 && TextAt(t, p, JoinEntries(o)) && m == p + |EntryText(o[0])| && r == m + 1
    ensures TextAt(t, p, EntryText(o[0])) && m < |t| && t[m] == ';'
    ensures TextAt(t, r, JoinEntries(o[1..]))
    ensures p + |JoinEntries(o)| == r + |JoinEntries(o[1..])|
  {
    var w, rest := EntryText(o[0]), JoinEntries(o[1..]);
    assert JoinEntries(o) == w + ";" + rest;
    TextAtParts(t, p, w + ";", rest, r);
    TextAtParts(t, p, w, ";", m);
    TextAtFirst(t, m, ";");
  }

  lemma OptsOkParts(o: Opts)
    requires |o| > 0 && OptsOk(o)
    ensures IsIdent(o[0].0) && ValueOk(o[0].1) && OptsOk(o[1..])
  {
    assert forall i :: 0 <= i < |o| - 1 ==> o[1..][i] == o[i + 1];
  }

  lemma {:induction false} ItemsPiece(t: string, p: nat, line: int, o: Opts, q: nat)
    requires |o| > 0 && OptsOk(o) && TextAt(t, p, JoinEntries(o))
    requires q == p + |JoinEntries(o)| && q < |t| && t[q] == '}'
    requires !AtLineStart(t, p)
    ensures Lexed(t, p, line) == ItemsSyms(o) + Lexed(t, q, line)
    decreases |o|
  {
    OptsOkParts(o);
    if |o| == 1 {
      EntryPiece(t, p, line, o[0], q);
    } else {
      var m := p + |EntryText(o[0])|;
      var r := m + 1;
      ItemsLayout(t, p, o, m, r);
      MidLine(t, m, r);
      EntryPiece(t, p, line, o[0], m);
      PunctPiece(t, m, line, ';', r);
      ItemsPiece(t, r, line, o[1..], q);
      Then3(EntrySyms(o[0]), [SemiSym], ItemsSyms(o[1..]),
        Lexed(t, p, line), Lexed(t, m, line), Lexed(t, r, line), Lexed(t, q, line));
    }
  }

  lemma OptsPiece(t: string, p: nat, line: int, o: Opts, q: nat)
    requires |o| > 0 && OptsOk(o) && TextAt(t, p, OptsText(o)) && q == p + |OptsText(o)|
    ensures Lexed(t, p, line) == OptsSyms(o) + Lexed(t, q, line)
  {
    var j := JoinEntries(o);
    var r := p + 1;
    var m := r + |j|;
    TextAtParts(t, p, "{" + j, "}", m);
    TextAtParts(t, p, "{", j, r);
    TextAtFirst(t, p, "{");
    TextAtFirst(t, m, "}");
    MidLine(t, p, r);
    PunctPiece(t, p, line, '{', r);
    ItemsPiece(t, r, line, o, m);
    PunctPiece(t, m, line, '}', q);
    Then3([LbraceSym], ItemsSyms(o), [RbraceSym],
      Lexed(t, p, line), Lexed(t, r, line), Lexed(t, m, line), Lexed(t, q, line));
  }

  /** `kind ` at the start of a line. */
  lemma KeywordSpacePiece(t: string, p: nat, line: int, k: Keyword, rest: string, q: nat)
    requires AtLineStart(t, p) && TextAt(t, p, KeywordText(k) + " " + rest) && q == p + |KeywordText(k)| + 1
    ensures Lexed(t, p, line) == [KwSym(k)] + Lexed(t, q, line)
    ensures TextAt(t, q, rest) && !AtLineStart(t, q)
  {
    var kw := KeywordText(k);
    var m := p + |kw|;
    TextAtParts(t, p, kw + " ", rest, q);
    TextAtParts(t, p, kw, " ", m);
    TextAtFirst(t, m, " ");
    MidLine(t, m, q);
    KeywordPiece(t, p, line, k, m);
    SpacePiece(t, m, line, q);
    ThenSkip([KwSym(k)], Lexed(t, p, line), Lexed(t, m, line), Lexed(t, q, line));
  }

  lemma SimpleLine(t: string, p: nat, line: int, k: Keyword, a: Value, q: nat, nline: int)
    requires ValueOk(a) && AtLineStart(t, p)
    requires TextAt(t, p, LineText(Simple(k, a))) && q == p + |LineText(Simple(k, a))| && nline == line + 1
    ensures Lexed(t, p, line) == ([KwSym(k)] + ValueSyms(a) + [NewlineSym]) + Lexed(t, q, nline)
  {
    var kw, vt := KeywordText(k), ValueText(a);
    var r := p + |kw| + 1;
    var z := r + |vt|;
    assert LineText(Simple(k, a)) == kw + " " + (vt + "\n");
    KeywordSpacePiece(t, p, line, k, vt + "\n", r);
    TextAtParts(t, r, vt, "\n", z);
    TextAtFirst(t, z, "\n");
    ValuePiece(t, r, line, a, z);
    NewlinePiece(t, z, line, q, nline);
    Then3([KwSym(k)], ValueSyms(a), [NewlineSym],
      Lexed(t, p, line), Lexed(t, r, line), Lexed(t, z, line), Lexed(t, q, nline));
  }

  /** `arg {opts}` in the middle of a line. */
  lemma ValueOptsPiece(t: string, p: nat, line: int, a: Value, o: Opts, q: nat)
    requires ValueOk(a) && |o| > 0 && OptsOk(o) && !AtLineStart(t, p)
    requires TextAt(t, p, ValueText(a) + " " + OptsText(o)) && q == p + |ValueText(a) + " " + OptsText(o)|
    ensures Lexed(t, p, line) == (ValueSyms(a) + OptsSyms(o)) + Lexed(t, q, line)
  {
    var vt, ot := ValueText(a), OptsText(o);
    var m := p + |vt|;
    var s := m + 1;
    TextAtParts(t, p, vt + " ", ot, s);
    TextAtParts(t, p, vt, " ", m);
    TextAtFirst(t, m, " ");
    ValuePiece(t, p, line, a, m);
    SpacePiece(t, m, line, s);
    OptsPiece(t, s, line, o, q);
    ThenSkip(ValueSyms(a), Lexed(t, p, line), Lexed(t, m, line), Lexed(t, s, line));
    Then(ValueSyms(a), OptsSyms(o), Lexed(t, p, line), Lexed(t, s, line), Lexed(t, q, line));
  }

  lemma WithOptionsLine(t: string, p: nat, line: int, k: Keyword, a: Value, o: Opts, q: nat, nline: int)
    requires ValueOk(a) && |o| > 0 && OptsOk(o) && AtLineStart(t, p)
    requires TextAt(t, p, LineText(WithOptions(k, a, o))) && q == p + |LineText(WithOptions(k, a, o))|
    requires nline == line + 1
    ensures Lexed(t, p, line) == ([KwSym(k)] + ValueSyms(a) + OptsSyms(o) + [NewlineSym]) + Lexed(t, q, nline)
  {
    var kw, mid := KeywordText(k), ValueText(a) + " " + OptsText(o);
    var r := p + |kw| + 1;
    var z := r + |mid|;
    WithOptionsLineText(k, a, o);
    KeywordSpacePiece(t, p, line, k, mid + "\n", r);
    TextAtParts(t, r, mid, "\n", z);
    TextAtFirst(t, z, "\n");
    ValueOptsPiece(t, r, line, a, o, z);
    NewlinePiece(t, z, line, q, nline);
    ThenLine([KwSym(k)], ValueSyms(a), OptsSyms(o),
      Lexed(t, p, line), Lexed(t, r, line), Lexed(t, z, line), Lexed(t, q, nline));
  }

  lemma WithOptionsLineText(k: Keyword, a: Value, o: Opts)
    ensures LineText(WithOptions(k, a, o))
         == KeywordText(k) + " " + ((ValueText(a) + " " + OptsText(o)) + "\n")
  {
    var kw, vt, ot := KeywordText(k), ValueText(a), OptsText(o);
    AppendAssoc(kw + " ", vt + " " + ot, "\n");
    AppendAssoc(kw + " ", vt + " ", ot);
    AppendAssoc(kw + " ", vt, " ");
  }

  lemma ThenLine(a: seq<Sym>, b: seq<Sym>, c: seq<Sym>, l1: seq<Sym>, l2: seq<Sym>, l3: seq<Sym>, l4: seq<Sym>)
    requires l1 == a + l2 && l2 == (b + c) + l3 && l3 == [NewlineSym] + l4
    ensures l1 == (a + b + c + [NewlineSym]) + l4
  {
    Then3(a, b + c, [NewlineSym], l1, l2, l3, l4);
    AppendAssoc(a, b, c);
  }

  lemma OptionsOnlyLine(t: string, p: nat, line: int, k: Keyword, o: Opts, q: nat, nline: int)
    requires |o| > 0 && OptsOk(o) && AtLineStart(t, p)
    requires TextAt(t, p, LineText(OptionsOnly(k, o))) && q == p + |LineText(OptionsOnly(k, o))|
    requires nline == line + 1
    ensures Lexed(t, p, line) == ([KwSym(k)] + OptsSyms(o) + [NewlineSym]) + Lexed(t, q, nline)
  {
    var kw, ot := KeywordText(k), OptsText(o);
    var r := p + |kw| + 1;
    var z := r + |ot|;
    assert LineText(OptionsOnly(k, o)) == kw + " " + (ot + "\n");
    KeywordSpacePiece(t, p, line, k, ot + "\n", r);
    TextAtParts(t, r, ot, "\n", z);
    TextAtFirst(t, z, "\n");
    OptsPiece(t, r, line, o, z);
    NewlinePiece(t, z, line, q, nline);
    Then3([KwSym(k)], OptsSyms(o), [NewlineSym],
      Lexed(t, p, line), Lexed(t, r, line), Lexed(t, z, line), Lexed(t, q, nline));
  }

  /** One rendered line lexes as the command's symbols and a NEWLINE. */
  lemma LinePiece(t: string, p: nat, line: int, c: Command, q: nat, nline: int)
    requires CommandOk(c) && AtLineStart(t, p) && TextAt(t, p, LineText(c))
    requires q == p + |LineText(c)| && nline == line + 1
    ensures Lexed(t, p, line) == (CommandSyms(c) + [NewlineSym]) + Lexed(t, q, nline)
  {
    match c
    case Simple(k, a) => SimpleLine(t, p, line, k, a, q, nline);
    case WithOptions(k, a, o) => WithOptionsLine(t, p, line, k, a, o, q, nline);
    case OptionsOnly(k, o) => OptionsOnlyLine(t, p, line, k, o, q, nline);
  }

  /** The rendered text of a well-formed configuration lexes, from the start
      of a line, as the symbols of its commands, each followed by NEWLINE. */
  lemma {:induction false} ProgramPiece(t: string, p: nat, line: int, cfg: Config)
    requires WellFormed(cfg) && AtLineStart(t, p) && p <= |t| && t[p..] == RenderedText(cfg)
    ensures Lexed(t, p, line) == ProgramSyms(cfg)
    decreases |cfg|
  {
    if cfg != [] {
      var r := LineText(cfg[0]);
      var q := p + |r|;
      var nline := line + 1;
      RestAfterLine(t, p, r, RenderedText(cfg[1..]), q);
      LinePiece(t, p, line, cfg[0], q, nline);
      assert WellFormed(cfg[1..]) by {
        assert forall i :: 0 <= i < |cfg| - 1 ==> cfg[1..][i] == cfg[i + 1];
      }
      ProgramPiece(t, q, nline, cfg[1..]);
    } else {
      assert p == |t|;
    }
  }

  /** Splitting the text after `p` at the end of a line. */
  lemma RestAfterLine(t: string, p: nat, r: string, rest: string, q: nat)
    requires p <= |t| && t[p..] == r + rest && |r| > 0 && r[|r| - 1] == '\n' && q == p + |r|
    ensures TextAt(t, p, r) && q <= |t|
    ensures AtLineStart(t, q) && t[q..] == rest
  {
    TextAtStartsWith(t, p, r);
    assert t[p..p + |r|] == t[p..][..|r|];
    assert t[p + |r| - 1] == t[p..][|r| - 1];
    assert t[p + |r|..] == t[p..][|r|..];
  }

  /** The tokens of the file `write` produces for a well-formed
      configuration, read with the line counter at 1, are the symbols of
      its commands, each followed by NEWLINE. */
  lemma LexRendered(cfg: Config)
    requires WellFormed(cfg)
    ensures Write(cfg).Some?
    ensures Syms(Scan(Write(cfg).value, 0, 1)) == ProgramSyms(cfg)
  {
    RenderedIsWrite(cfg);
    var t := RenderedText(cfg);
    assert t[0..] == t;
    ProgramPiece(t, 0, 1, cfg);
    LexedIsScan(t, 0, 1);
  }
}
