/** The grammar of control scripts (parser.py), as a recursive-descent
    parser over the lexer's token kinds and values. Parsing is all or
    nothing: any syntax error gives `SyntaxError`, never a partial
    configuration. */
module Parser {
  import opened Wrappers
  import opened Decimals
  import opened Ast
  import opened Lexer
  import opened OrderedMaps

  /** What the grammar sees of a token: its kind and its value. */
  datatype Sym = Sym(kind: TokenKind, value: Lexeme)

  function Syms(toks: seq<Token>): seq<Sym> {
    if toks == [] then [] else [Sym(toks[0].kind, toks[0].value)] + Syms(toks[1..])
  }

  datatype ParseResult = Parsed(cfg: Config) | SyntaxError

  /** Commands taking one `str` argument. */
  const StrArgCommands: seq<Keyword> := [Messages, Input, ReadCellBoundary]

  /** Commands taking one NUMBER argument. */
  const NumberArgCommands: seq<Keyword> := [Run, Timestep]

  /** The shape the grammar gives each kind: `(kind, ID)`, `(kind, NUMBER)`,
      `('nlist', opts)` or `(kind, ID, opts)`, option sets never empty and
      without repeated keys. */
  predicate Grammatical(c: Command) {
    match c
    case Simple(k, a) => (k in StrArgCommands && a.Str?) || (k in NumberArgCommands && a.Num?)
    case WithOptions(k, a, o) =>
      k !in StrArgCommands && k !in NumberArgCommands && k != Nlist && a.Str? && |o| > 0 && UniqueKeys(o)
    case OptionsOnly(k, o) => k == Nlist && |o| > 0 && UniqueKeys(o)
  }

  /** `str : ID`. */
  function ParseStr(s: seq<Sym>, p: nat): (r: Option<(string, nat)>)
    ensures r.Some? <==> p < |s| && s[p].kind == Id && s[p].value.Text?
    ensures r.Some? ==> r.value == (s[p].value.s, p + 1)
  {
    if p < |s| && s[p].kind == Id && s[p].value.Text? then Some((s[p].value.s, p + 1)) else None
  }

  /** A NUMBER token. */
  function ParseNumber(s: seq<Sym>, p: nat): (r: Option<(Decimal, nat)>)
    ensures r.Some? <==> p < |s| && s[p].kind == Number && s[p].value.Numeric?
    ensures r.Some? ==> r.value == (s[p].value.d, p + 1)
  {
    if p < |s| && s[p].kind == Number && s[p].value.Numeric? then Some((s[p].value.d, p + 1)) else None
  }

  /** The right-hand side of an assignment: `str` or NUMBER. */
  function ParseRhs(s: seq<Sym>, p: nat): (r: Option<(Value, nat)>)
    ensures r.Some? ==> r.value.1 == p + 1 && !r.value.0.Flag?
    ensures r.Some? <==> (p < |s| &&
      ((s[p].kind == Id && s[p].value.Text?) || (s[p].kind == Number && s[p].value.Numeric?)))
    ensures r.Some? ==> (r.value.0.Str? <==> s[p].kind == Id)
    ensures r.Some? && r.value.0.Str? ==> r.value.0.s == s[p].value.s
    ensures r.Some? && r.value.0.Num? ==> r.value.0.d == s[p].value.d
  {
    match ParseStr(s, p)
    case Some((x, q)) => Some((Str(x), q))
    case None =>
      match ParseNumber(s, p)
      case Some((d, q)) => Some((Num(d), q))
      case None => None
  }

  /** `expr : str EQUALS str | str EQUALS NUMBER | str`: one option entry;
      a bare name stands for `True`. */
  function ParseExpr(s: seq<Sym>, p: nat): (r: Option<((string, Value), nat)>)
    ensures r.Some? ==> ParseStr(s, p).Some? && r.value.0.0 == ParseStr(s, p).value.0
    ensures r.Some? ==> p < r.value.1 <= |s|
    ensures r.Some? ==> (r.value.0.1 == Flag <==> !(p + 1 < |s| && s[p + 1].kind == Equals))
  {
    match ParseStr(s, p)
    case None => None
    case Some((key, q)) =>
      if q < |s| && s[q].kind == Equals then
        match ParseRhs(s, q + 1)
        case None => None
        case Some((v, q')) => Some(((key, v), q'))
      else Some(((key, Flag), q))
  }

  /** `exprlist : expr | exprlist SEMI expr`: the entries in the order they
      are written. A `;` directly before `}` is left for `exprset`. */
  function ParseItems(s: seq<Sym>, p: nat): (r: Option<(Opts, nat)>)
    ensures r.Some? ==> |r.value.0| > 0 && p < r.value.1 <= |s|
    decreases |s| - p
  {
    match ParseExpr(s, p)
    case None => None
    case Some((e, q)) =>
      if q + 1 < |s| && s[q].kind == Semi && s[q + 1].kind != Rbrace then
        match ParseItems(s, q + 1)
        case None => None
        case Some((es, q')) => Some(([e] + es, q'))
      else Some(([e], q))
  }

  /** `exprset : LBRACE exprlist RBRACE | LBRACE exprlist SEMI RBRACE`: the
      entries merged as `{**p[1], **p[3]}` does, so a repeated key takes
      its last value and keeps its first position. */
  function ParseExprSet(s: seq<Sym>, p: nat): (r: Option<(Opts, nat)>)
    ensures r.Some? ==> p < |s| && s[p].kind == Lbrace
    ensures r.Some? ==> p < r.value.1 <= |s| && s[r.value.1 - 1].kind == Rbrace
    ensures r.Some? ==> |r.value.0| > 0 && UniqueKeys(r.value.0)
  {
    if p < |s| && s[p].kind == Lbrace then
      match ParseItems(s, p + 1)
      case None => None
      case Some((items, q)) =>
        match CloseSet(s, q)
        case None => None
        case Some(e) =>
          FromItemsShape(items);
          Some((FromItems(items), e))
    else None
  }

  /** The end of an option set: `}` or `; }` at `q`, and the position
      just past it. */
  function CloseSet(s: seq<Sym>, q: nat): (r: Option<nat>)
    ensures r.Some? ==> q < r.value <= |s| && s[r.value - 1].kind == Rbrace
  {
    if q < |s| && s[q].kind == Rbrace then Some(q + 1)
    else if q + 1 < |s| && s[q].kind == Semi && s[q + 1].kind == Rbrace then Some(q + 2)
    else None
  }

  /** An option set closes with `}` or with `; }` right after its entry
      list, and nowhere else; either way its entries are merged. */
  lemma ExprSetClose(s: seq<Sym>, p: nat)
    requires p < |s| && s[p].kind == Lbrace && ParseItems(s, p + 1).Some?
    ensures var o := ParseItems(s, p + 1).value.0;
      var q := ParseItems(s, p + 1).value.1;
      && (q < |s| && s[q].kind == Rbrace ==> ParseExprSet(s, p) == Some((FromItems(o), q + 1)))
      && (q + 1 < |s| && s[q].kind == Semi && s[q + 1].kind == Rbrace ==>
            ParseExprSet(s, p) == Some((FromItems(o), q + 2)))
      && (ParseExprSet(s, p).Some? <==>
            (q < |s| && s[q].kind == Rbrace) || (q + 1 < |s| && s[q].kind == Semi && s[q + 1].kind == Rbrace))
  {
  }

  /** Merging a non-empty entry list gives a non-empty set without
      duplicate keys. */
  lemma FromItemsShape(items: Opts)
    requires |items| > 0
    ensures |FromItems(items)| > 0 && UniqueKeys(FromItems(items))
  {
    UnionUnique([], items);
    var first := Put([], items[0].0, items[0].1);
    assert |Keys(first)| == 1;
    UnionKeepsPositions(first, items[1..]);
  }

  /** `command : KEYWORD ...`: one command, in the shape its keyword's rule
      gives it. */
  function ParseCommand(s: seq<Sym>, p: nat): (r: Option<(Command, nat)>)
    ensures r.Some? ==> p < |s| && s[p].kind == Kw(r.value.0.kind)
    ensures r.Some? ==> p < r.value.1 <= |s| && Grammatical(r.value.0)
  {
    if p < |s| && s[p].kind.Kw? then
      var k := s[p].kind.k;
      if k in StrArgCommands then
        match ParseStr(s, p + 1)
        case Some((x, q)) => Some((Simple(k, Str(x)), q))
        case None => None
      else if k in NumberArgCommands then
        match ParseNumber(s, p + 1)
        case Some((d, q)) => Some((Simple(k, Num(d)), q))
        case None => None
      else if k == Nlist then
        match ParseExprSet(s, p + 1)
        case Some((o, q)) => Some((OptionsOnly(k, o), q))
        case None => None
      else
        match ParseStr(s, p + 1)
        case None => None
        case Some((x, q)) =>
          match ParseExprSet(s, q)
          case Some((o, q')) => Some((WithOptions(k, Str(x), o), q'))
          case None => None
    else None
  }

  /** `statement : command NEWLINE | NEWLINE`: a command, or nothing for a
      blank line. */
  function ParseStatement(s: seq<Sym>, p: nat): (r: Option<(Option<Command>, nat)>)
    ensures r.Some? ==> p < r.value.1 <= |s| && s[r.value.1 - 1].kind == Newline
    ensures r.Some? && r.value.0.None? ==> r.value.1 == p + 1
  {
    if p < |s| && s[p].kind == Newline then Some((None, p + 1))
    else
      match ParseCommand(s, p)
      case None => None
      case Some((c, q)) =>
        if q < |s| && s[q].kind == Newline then Some((Some(c), q + 1)) else None
  }

  /** `program : statement | program statement` over `s[p..]`: the commands
      of the statements in order, blank lines contributing nothing. */
  function ParseProgram(s: seq<Sym>, p: nat): (r: Option<Config>)
    requires p <= |s|
    ensures r.Some? ==> forall c :: c in r.value ==> Grammatical(c)
    decreases |s| - p
  {
    if p == |s| then Some([])
    else
      match ParseStatement(s, p)
      case None => None
      case Some((st, q)) =>
        match ParseProgram(s, q)
        case None => None
        case Some(cs) =>
          match st
          case None => Some(cs)
          case Some(c) => Some([c] + cs)
  }

  /** `parse`: a program is at least one statement, so an empty token
      stream is a syntax error at the end of input. */
  function Parse(s: seq<Sym>): (r: ParseResult)
    ensures r.Parsed? ==> forall c :: c in r.cfg ==> Grammatical(c)
  {
    if s == [] then SyntaxError
    else
      match ParseProgram(s, 0)
      case Some(cfg) => Parsed(cfg)
      case None => SyntaxError
  }

  /** Parsing script text: tokenize with the line counter at 1, then parse.
      An accepted script holds only grammatical commands, and contains a
      newline, since its last token is a NEWLINE. */
  function ParseText(text: string): (r: ParseResult)
    ensures r.Parsed? ==> forall c :: c in r.cfg ==> Grammatical(c)
    ensures r.Parsed? ==> '\n' in text
  {
    var toks := Scan(text, 0, 1);
    var r := Parse(Syms(toks));
    if r.Parsed? then
      ParsedEndsWithNewline(Syms(toks));
      SymsLength(toks);
      SymsIndex(toks, |toks| - 1);
      ScanTokens(text, 0, 1);
      assert toks[|toks| - 1] in toks;
      r
    else r
  }

  /** The symbols are the tokens' kinds and values, one for one. */
  lemma {:induction false} SymsIndex(toks: seq<Token>, i: nat)
    requires i < |toks|
    ensures |Syms(toks)| == |toks| && Syms(toks)[i] == Sym(toks[i].kind, toks[i].value)
  {
    SymsLength(toks);
    if i > 0 {
      SymsIndex(toks[1..], i - 1);
    }
  }

  lemma {:induction false} SymsLength(toks: seq<Token>)
    ensures |Syms(toks)| == |toks|
  {
    if toks != [] {
      SymsLength(toks[1..]);
    }
  }

  // ----- Properties of the grammar -----

  /** A blank line contributes nothing to the program. */
  lemma BlankLineDropped(s: seq<Sym>, p: nat)
    requires p < |s| && s[p].kind == Newline
    ensures ParseProgram(s, p) == ParseProgram(s, p + 1)
  {
  }

  /** Every statement ends with NEWLINE, so an accepted token stream ends
      with one: a last command without its newline is a syntax error. */
  lemma {:induction false} ProgramEndsWithNewline(s: seq<Sym>, p: nat)
    requires p < |s| && ParseProgram(s, p).Some?
    ensures s[|s| - 1].kind == Newline
    decreases |s| - p
  {
    var q := ParseStatement(s, p).value.1;
    if q < |s| {
      ProgramEndsWithNewline(s, q);
    }
  }

  lemma ParsedEndsWithNewline(s: seq<Sym>)
    requires Parse(s).Parsed?
    ensures |s| > 0 && s[|s| - 1].kind == Newline
  {
    ProgramEndsWithNewline(s, 0);
  }

  /** `{}` is not an option set: a block needs at least one entry. */
  lemma EmptyBlockRejected(s: seq<Sym>, p: nat)
    requires p + 1 < |s| && s[p].kind == Lbrace && s[p + 1].kind == Rbrace
    ensures ParseExprSet(s, p).None?
  {
  }

  /** A positional argument other than that of `run` and `timestep` must be
      an ID: a NUMBER there is a syntax error. */
  lemma NumberForStrRejected(s: seq<Sym>, p: nat, k: Keyword)
    requires p + 1 < |s| && s[p].kind == Kw(k) && k !in NumberArgCommands && s[p + 1].kind == Number
    ensures ParseCommand(s, p).None?
  {
  }

  /** The merge rule of an option block: each key written in the block is
      present, takes the last value written for it, and the keys keep the
      order of their first occurrence. */
  lemma ExprSetLastWins(s: seq<Sym>, p: nat)
    requires ParseExprSet(s, p).Some?
    ensures ParseItems(s, p + 1).Some?
    ensures var items := ParseItems(s, p + 1).value.0;
      var o := ParseExprSet(s, p).value.0;
      && (forall k :: HasKey(o, k) <==> HasKey(items, k))
      && (forall k :: Get(o, k) == LastValue(items, k))
      && (forall i, j :: 0 <= i < j < |o| ==> Find(items, o[i].0).value < Find(items, o[j].0).value)
  {
    var items := ParseItems(s, p + 1).value.0;
    var o := ParseExprSet(s, p).value.0;
    assert o == Union([], items);
    forall k ensures Get(o, k) == LastValue(items, k) && (HasKey(o, k) <==> HasKey(items, k)) {
      UnionGet([], items, k);
      assert Get(o, k).Some? <==> HasKey(o, k);
      assert LastValue(items, k).Some? <==> HasKey(items, k);
    }
    UnionNewOrder([], items);
  }
}
