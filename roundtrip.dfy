/** The round trip `parse(generate(cfg)) == cfg`: the parser reads the
    symbols of a rendered configuration back into that configuration, so a
    well-formed configuration written to text and parsed again is itself
    (an empty one parses to the syntax error of an empty program). */
module RoundTrip {
  import opened Wrappers
  import opened Decimals
  import opened Ast
  import opened OrderedMaps
  import opened Lexer
  import opened Parser
  import opened Generator
  import opened Rendered
  import opened Configuration

  // ----- Symbols at a position -----

  /** The symbols `w` stand in `s` from position `p` on. */
  predicate SymsAt(s: seq<Sym>, p: nat, w: seq<Sym>)
    decreases w
  {
    if w == [] then p <= |s| else p < |s| && s[p] == w[0] && SymsAt(s, p + 1, w[1..])
  }

  lemma {:induction false} SymsAtParts(s: seq<Sym>, p: nat, a: seq<Sym>, b: seq<Sym>, m: nat)
    requires SymsAt(s, p, a + b) && m == p + |a|
    ensures SymsAt(s, p, a) && SymsAt(s, m, b)
    decreases a
  {
    if a == [] {
      assert a + b == b;
      SymsAtBound(s, p, b);
    } else {
      assert (a + b)[0] == a[0];
      assert (a + b)[1..] == a[1..] + b;
      SymsAtParts(s, p + 1, a[1..], b, m);
    }
  }

  lemma {:induction false} SymsAtBound(s: seq<Sym>, p: nat, w: seq<Sym>)
    requires SymsAt(s, p, w)
    ensures p + |w| <= |s|
    decreases w
  {
    if w != [] {
      SymsAtBound(s, p + 1, w[1..]);
    }
  }

  lemma SymsAtFirst(s: seq<Sym>, p: nat, w: seq<Sym>)
    requires SymsAt(s, p, w) && |w| > 0
    ensures p < |s| && s[p] == w[0]
  {
  }

  lemma {:induction false} SymsAtSecond(s: seq<Sym>, p: nat, w: seq<Sym>, n: nat)
    requires SymsAt(s, p, w) && |w| > 1 && n == p + 1
    ensures n < |s| && s[n] == w[1]
  {
    assert w[1..][0] == w[1];
  }

  lemma {:induction false} SymsAtSuffix(s: seq<Sym>, p: nat)
    requires p <= |s|
    ensures SymsAt(s, p, s[p..])
    decreases |s| - p
  {
    if p < |s| {
      assert s[p..][1..] == s[p + 1..];
      SymsAtSuffix(s, p + 1);
    }
  }

  // ----- Values -----

  /** The right-hand side reads exactly one symbol, an ID or a NUMBER, and
      never gives `True`: what it reads is written as that one symbol. */
  lemma RhsReadsOneSym(s: seq<Sym>, p: nat)
    requires ParseRhs(s, p).Some?
    ensures var v := ParseRhs(s, p).value.0;
      && ParseRhs(s, p).value.1 == p + 1
      && !v.Flag?
      && ValueSyms(v) == [s[p]]
  {
  }

  /** A written value reads back as itself, except `True`, which is written
      as the ID `True` and reads back as the string `"True"`. */
  lemma RhsReadsValue(s: seq<Sym>, p: nat, v: Value)
    requires p < |s| && s[p] == ValueSyms(v)[0]
    ensures ParseRhs(s, p) == Some((if v.Flag? then Str("True") else v, p + 1))
  {
  }

  /** An identifier written mid-line reads back through the lexer and
      `str : ID` as itself. */
  lemma IdentParses(t: string, p: nat, line: int, x: string, q: nat)
    requires IsIdent(x) && TextAt(t, p, x) && q == p + |x| && q < |t| && !IsIdChar(t[q])
    requires !AtLineStart(t, p)
    ensures ParseStr(Lexed(t, p, line), 0) == Some((x, 1))
  {
    IdentPiece(t, p, line, x, q);
  }

  /** A canonical number as `str` prints it reads back through the lexer
      and the NUMBER rule of the grammar as itself. */
  lemma NumberParses(t: string, p: nat, line: int, d: Decimal, q: nat)
    requires Canonical(d) && TextAt(t, p, DecimalText(d))
    requires q == p + |DecimalText(d)| && q < |t| && !IsIdChar(t[q])
    ensures ParseNumber(Lexed(t, p, line), 0) == Some((d, 1))
  {
    NumberPiece(t, p, line, d, q);
  }

  /** `g_expr` of a value, lexed and read as a right-hand side, gives the
      value back; `True` comes back as the string `"True"`. */
  lemma ValueTextParses(t: string, p: nat, line: int, v: Value, q: nat)
    requires ValueOk(v) && TextAt(t, p, ValueText(v))
    requires q == p + |ValueText(v)| && q < |t| && !IsIdChar(t[q])
    requires !AtLineStart(t, p)
    ensures ParseRhs(Lexed(t, p, line), 0) == Some((if v.Flag? then Str("True") else v, 1))
  {
    ValuePiece(t, p, line, v, q);
    RhsReadsValue(Lexed(t, p, line), 0, v);
  }

  /** `g_expr_assignment` of an entry, lexed and read as `expr`, gives the
      entry back when `;` or `}` follows it, as in a written option set; a
      bare key reads back as `True`. */
  lemma EntryTextParses(t: string, p: nat, line: int, e: (string, Value), q: nat)
    requires IsIdent(e.0) && ValueOk(e.1) && TextAt(t, p, EntryText(e))
    requires q == p + |EntryText(e)| && q < |t| && (t[q] == ';' || t[q] == '}')
    requires !AtLineStart(t, p)
    ensures ParseExpr(Lexed(t, p, line), 0) == Some((e, |EntrySyms(e)|))
  {
    var s := Lexed(t, p, line);
    var w := EntrySyms(e);
    var rest := Lexed(t, q, line);
    EntryPiece(t, p, line, e, q);
    PunctPiece(t, q, line, t[q], q + 1);
    assert s == w + rest;
    SymsAtSuffix(s, 0);
    assert s[0..] == w + rest;
    SymsAtParts(s, 0, w, rest, |w|);
    assert s[|w|] == rest[0] == PunctSym(t[q]);
    EntryParses(s, 0, e, |w|);
  }

  // ----- Option sets -----

  /** An entry reads back as itself. A bare key is `True` as long as no
      `=` follows it. */
  lemma EntryParses(s: seq<Sym>, p: nat, e: (string, Value), q: nat)
    requires SymsAt(s, p, EntrySyms(e)) && q == p + |EntrySyms(e)|
    requires e.1 == Flag ==> !(q < |s| && s[q].kind == Equals)
    ensures ParseExpr(s, p) == Some((e, q))
  {
    var w := EntrySyms(e);
    SymsAtFirst(s, p, w);
    if e.1 != Flag {
      var n := p + 1;
      var m := n + 1;
      SymsAtSecond(s, p, w, n);
      SymsAtParts(s, p, [w[0], w[1]], ValueSyms(e.1), m);
      SymsAtFirst(s, m, ValueSyms(e.1));
    }
  }

  lemma ItemsFirst(o: Opts)
    requires |o| > 0
    ensures |ItemsSyms(o)| > 0 && ItemsSyms(o)[0] == Sym(Id, Text(o[0].0))
  {
  }

  /** A non-empty entry list written with `;` between entries, followed by
      `}`, reads back as the same list. */
  lemma {:induction false} ItemsParse(s: seq<Sym>, p: nat, o: Opts, q: nat)
    requires |o| > 0 && SymsAt(s, p, ItemsSyms(o)) && q == p + |ItemsSyms(o)|
    requires q < |s| && s[q] == RbraceSym
    ensures ParseItems(s, p) == Some((o, q))
    decreases |o|
  {
    if |o| == 1 {
      EntryParses(s, p, o[0], q);
      assert [o[0]] == o;
    } else {
      var e, w := EntrySyms(o[0]), ItemsSyms(o[1..]);
      var m := p + |e|;
      var n := m + 1;
      assert ItemsSyms(o) == e + ([SemiSym] + w);
      SymsAtParts(s, p, e, [SemiSym] + w, m);
      SymsAtParts(s, m, [SemiSym], w, n);
      SymsAtFirst(s, m, [SemiSym]);
      EntryParses(s, p, o[0], m);
      ItemsFirst(o[1..]);
      SymsAtFirst(s, n, w);
      ItemsParse(s, n, o[1..], q);
      ItemsStep(s, p, o, m, n, q);
    }
  }

  lemma ItemsStep(s: seq<Sym>, p: nat, o: Opts, m: nat, n: nat, q: nat)
    requires |o| > 1 && ParseExpr(s, p) == Some((o[0], m)) && n == m + 1
    requires n < |s| && s[m].kind == Semi && s[n].kind == Id
    requires ParseItems(s, n) == Some((o[1..], q))
    ensures ParseItems(s, p) == Some((o, q))
  {
    assert [o[0]] + o[1..] == o;
  }

  /** An option set written as `{...}` reads back as the same set: its keys
      are distinct, so merging the entries changes nothing. */
  lemma ExprSetParses(s: seq<Sym>, p: nat, o: Opts, q: nat)
    requires |o| > 0 && UniqueKeys(o)
    requires SymsAt(s, p, OptsSyms(o)) && q == p + |OptsSyms(o)|
    ensures ParseExprSet(s, p) == Some((o, q))
  {
    var w := ItemsSyms(o);
    var n := p + 1;
    var m := n + |w|;
    assert OptsSyms(o) == [LbraceSym] + (w + [RbraceSym]);
    SymsAtParts(s, p, [LbraceSym], w + [RbraceSym], n);
    SymsAtFirst(s, p, [LbraceSym]);
    SymsAtParts(s, n, w, [RbraceSym], m);
    SymsAtFirst(s, m, [RbraceSym]);
    ItemsParse(s, n, o, m);
    FromDistinctItems(o);
    ExprSetStep(s, p, o, n, m, q);
  }

  lemma FromDistinctItems(o: Opts)
    requires UniqueKeys(o)
    ensures FromItems(o) == o
  {
    assert [] + o == o;
    UnionDistinct([], o);
  }

  lemma ExprSetStep(s: seq<Sym>, p: nat, o: Opts, n: nat, m: nat, q: nat)
    requires p < |s| && s[p].kind == Lbrace && n == p + 1
    requires ParseItems(s, n) == Some((o, m))
    requires m < |s| && s[m].kind == Rbrace && q == m + 1
    requires FromItems(o) == o
    ensures ParseExprSet(s, p) == Some((o, q))
  {
    assert CloseSet(s, m) == Some(q);
    ExprSetClose(s, p);
  }

  // ----- Commands -----

  lemma SimpleParses(s: seq<Sym>, p: nat, c: Command, q: nat)
    requires c.Simple? && CommandOk(c)
    requires SymsAt(s, p, CommandSyms(c)) && q == p + |CommandSyms(c)|
    ensures ParseCommand(s, p) == Some((c, q))
  {
    var w := CommandSyms(c);
    SymsAtFirst(s, p, w);
    SymsAtSecond(s, p, w, p + 1);
  }

  lemma WithOptionsParses(s: seq<Sym>, p: nat, c: Command, q: nat)
    requires c.WithOptions? && CommandOk(c)
    requires SymsAt(s, p, CommandSyms(c)) && q == p + |CommandSyms(c)|
    ensures ParseCommand(s, p) == Some((c, q))
  {
    var w := CommandSyms(c);
    var head := [KwSym(c.kind)] + ValueSyms(c.arg);
    var m := p + 2;
    SymsAtFirst(s, p, w);
    SymsAtSecond(s, p, w, p + 1);
    SymsAtParts(s, p, head, OptsSyms(c.opts), m);
    ExprSetParses(s, m, c.opts, q);
  }

  lemma OptionsOnlyParses(s: seq<Sym>, p: nat, c: Command, q: nat)
    requires c.OptionsOnly? && CommandOk(c)
    requires SymsAt(s, p, CommandSyms(c)) && q == p + |CommandSyms(c)|
    ensures ParseCommand(s, p) == Some((c, q))
  {
    var m := p + 1;
    SymsAtParts(s, p, [KwSym(c.kind)], OptsSyms(c.opts), m);
    SymsAtFirst(s, p, [KwSym(c.kind)]);
    ExprSetParses(s, m, c.opts, q);
  }

  /** A well-formed command reads back as itself, in the shape its keyword
      gives it. */
  lemma CommandParses(s: seq<Sym>, p: nat, c: Command, q: nat)
    requires CommandOk(c) && SymsAt(s, p, CommandSyms(c)) && q == p + |CommandSyms(c)|
    ensures ParseCommand(s, p) == Some((c, q))
  {
    match c
    case Simple(_, _) => SimpleParses(s, p, c, q);
    case WithOptions(_, _, _) => WithOptionsParses(s, p, c, q);
    case OptionsOnly(_, _) => OptionsOnlyParses(s, p, c, q);
  }

  // ----- Programs -----

  lemma StatementParses(s: seq<Sym>, p: nat, c: Command, m: nat, n: nat)
    requires CommandOk(c) && SymsAt(s, p, CommandSyms(c) + [NewlineSym])
    requires m == p + |CommandSyms(c)| && n == m + 1
    ensures ParseStatement(s, p) == Some((Some(c), n))
  {
    SymsAtParts(s, p, CommandSyms(c), [NewlineSym], m);
    SymsAtFirst(s, m, [NewlineSym]);
    SymsAtFirst(s, p, CommandSyms(c));
    CommandParses(s, p, c, m);
    StatementStep(s, p, c, m, n);
  }

  lemma StatementStep(s: seq<Sym>, p: nat, c: Command, m: nat, n: nat)
    requires p < |s| && s[p].kind.Kw? && ParseCommand(s, p) == Some((c, m))
    requires m < |s| && s[m].kind == Newline && n == m + 1
    ensures ParseStatement(s, p) == Some((Some(c), n))
  {
  }

  /** The symbols of a well-formed configuration, running to the end of the
      stream, read back as that configuration. */
  lemma {:induction false} ProgramParses(s: seq<Sym>, p: nat, cfg: Config)
    requires WellFormed(cfg) && SymsAt(s, p, ProgramSyms(cfg)) && p + |ProgramSyms(cfg)| == |s|
    ensures ParseProgram(s, p) == Some(cfg)
    decreases |cfg|
  {
    if cfg != [] {
      var line := CommandSyms(cfg[0]) + [NewlineSym];
      var m := p + |CommandSyms(cfg[0])|;
      var n := m + 1;
      SymsAtParts(s, p, line, ProgramSyms(cfg[1..]), n);
      StatementParses(s, p, cfg[0], m, n);
      WellFormedTail(cfg);
      ProgramParses(s, n, cfg[1..]);
      ProgramStep(s, p, cfg, n);
    }
  }

  lemma WellFormedTail(cfg: Config)
    requires WellFormed(cfg) && cfg != []
    ensures CommandOk(cfg[0]) && WellFormed(cfg[1..])
  {
    forall i | 0 <= i < |cfg[1..]| ensures CommandOk(cfg[1..][i]) {
      assert cfg[1..][i] == cfg[i + 1];
    }
  }

  lemma ProgramStep(s: seq<Sym>, p: nat, cfg: Config, n: nat)
    requires cfg != [] && p < n <= |s|
    requires ParseStatement(s, p) == Some((Some(cfg[0]), n))
    requires ParseProgram(s, n) == Some(cfg[1..])
    ensures ParseProgram(s, p) == Some(cfg)
  {
    var c0, rest := cfg[0], cfg[1..];
    assert cfg == [c0] + rest;
  }

  /** `parse(generate(cfg)) == cfg`: a well-formed configuration renders,
      and lexing and parsing the rendered text gives it back. The empty
      configuration renders to the empty text, which is not a program. */
  lemma WriteThenParse(cfg: Config)
    requires WellFormed(cfg)
    ensures Write(cfg).Some?
    ensures ParseText(Write(cfg).value) == if cfg == [] then SyntaxError else Parsed(cfg)
  {
    LexRendered(cfg);
    var s := ProgramSyms(cfg);
    if cfg != [] {
      SymsAtSuffix(s, 0);
      assert s[0..] == s;
      ProgramParses(s, 0, cfg);
    }
  }

  /** `g_command` of a well-formed command, followed by a newline, parses
      back as that one command. */
  lemma CommandRoundTrip(c: Command)
    requires CommandOk(c)
    ensures GCommand(c).Some?
    ensures ParseText(GCommand(c).value + "\n") == Parsed([c])
  {
    assert WellFormed([c]) by {
      assert [c][0] == c;
    }
    WriteThenParse([c]);
    WriteSingle(c);
  }

  // ----- Edits and the round trip -----

  /** Merging well-formed option sets gives a well-formed option set. */
  lemma UnionOk(a: Opts, b: Opts)
    requires OptsOk(a) && OptsOk(b) && |a| > 0 && UniqueKeys(a)
    ensures var u := Union(a, b);
      OptsOk(u) && |u| > 0 && UniqueKeys(u)
  {
    var u := Union(a, b);
    UnionFrom(a, b);
    UnionKeepsPositions(a, b);
    UnionUnique(a, b);
    forall i | 0 <= i < |u| ensures IsIdent(u[i].0) && ValueOk(u[i].1) {
      assert u[i] in u;
      if u[i] in a {
        var j :| 0 <= j < |a| && a[j] == u[i];
      } else {
        var j :| 0 <= j < |b| && b[j] == u[i];
      }
    }
  }

  /** `insert_cmd` of a well-formed command keeps a configuration
      well-formed, wherever it goes. */
  lemma InsertCmdKeepsWellFormed(cfg: Config, c: Command, where: int)
    requires WellFormed(cfg) && CommandOk(c)
    ensures WellFormed(InsertCmd(cfg, c, where))
  {
    var r := InsertCmd(cfg, c, where);
    var w := SliceIndex(|cfg|, where);
    forall i | 0 <= i < |r| ensures CommandOk(r[i]) {
      if i < w {
        assert r[i] == r[..w][i] == cfg[i];
      } else if i > w {
        assert r[i] == r[w + 1..][i - w - 1] == cfg[i - 1];
      }
    }
  }

  /** `set_cmd_arg` with an argument of the right type for a simple
      command keeps a configuration well-formed. */
  lemma SetCmdArgKeepsWellFormed(cfg: Config, k: Keyword, arg: Value)
    requires WellFormed(cfg) && HasKind(cfg, k) && CommandOk(Simple(k, arg))
    ensures SetCmdArg(cfg, k, arg).Some? && WellFormed(SetCmdArg(cfg, k, arg).value)
  {
  }

  /** `set_cmd_arg` on a command with options drops its option set: the
      result is `(k, arg)`, which `g_command` cannot render, so the edited
      configuration cannot be written. */
  lemma SetCmdArgOnOptionsKind(cfg: Config, k: Keyword, arg: Value)
    requires HasKind(cfg, k) && k !in SimpleCmdTokens
    ensures SetCmdArg(cfg, k, arg).Some? && Write(SetCmdArg(cfg, k, arg).value).None?
  {
    CmdIdxHead(cfg, k);
    var i := CmdIdx(cfg, k)[0];
    var r := SetCmdArg(cfg, k, arg).value;
    assert r[i] == Simple(k, arg);
    UnwritableCommand(r, i);
  }

  /** One command that `g_command` cannot render makes `write` fail. */
  lemma UnwritableCommand(cfg: Config, i: nat)
    requires i < |cfg| && GCommand(cfg[i]).None?
    ensures Write(cfg).None?
  {
  }

  /** The one-selector `set_cmd_opt` rebuilds the command as
      `(k, merged)`, without its name: for a command of the
      `options_cmd_tokens` group that shape cannot be written. */
  lemma SetCmdOptOnOptionsKind(cfg: Config, k: Keyword, opts: Opts)
    requires k in OptionsCmdTokens && SetCmdOpt(cfg, k, opts).Some?
    ensures Write(SetCmdOpt(cfg, k, opts).value).None?
  {
    CmdIdxHead(cfg, k);
    var i := CmdIdx(cfg, k)[0];
    var r := SetCmdOpt(cfg, k, opts).value;
    assert r[i] == OptionsOnly(k, Union(Last(cfg[i]).opts, opts));
    KeywordGroups(k);
    UnwritableCommand(r, i);
  }

  /** On `nlist`, whose shape is `(kind, opts)`, the one-selector
      `set_cmd_opt` with well-formed options keeps a configuration
      well-formed. */
  lemma SetCmdOptNlistKeepsWellFormed(cfg: Config, opts: Opts)
    requires WellFormed(cfg) && HasKind(cfg, Nlist) && OptsOk(opts)
    ensures SetCmdOpt(cfg, Nlist, opts).Some? && WellFormed(SetCmdOpt(cfg, Nlist, opts).value)
  {
    CmdIdxHead(cfg, Nlist);
    var i := CmdIdx(cfg, Nlist)[0];
    assert CommandOk(cfg[i]);
    UnionOk(Last(cfg[i]).opts, opts);
  }

  /** The two-selector `set_cmd_opt` with well-formed options keeps a
      configuration well-formed. */
  lemma SetCmdOptNamedKeepsWellFormed(cfg: Config, k: Keyword, name: string, opts: Opts)
    requires WellFormed(cfg) && SetCmdOptNamed(cfg, k, name, opts).Some? && OptsOk(opts)
    ensures WellFormed(SetCmdOptNamed(cfg, k, name, opts).value)
  {
    NamedIdxHead(cfg, k, name);
    var i := NamedIdx(cfg, CmdIdx(cfg, k), name)[0];
    assert CommandOk(cfg[i]) && cfg[i].WithOptions?;
    UnionOk(Last(cfg[i]).opts, opts);
  }

  /** `add_pair_param` with a well-formed, non-empty option set keeps a
      configuration well-formed. */
  lemma AddPairParamKeepsWellFormed(cfg: Config, p: string, opts: Opts)
    requires WellFormed(cfg) && HasNamed(cfg, PairPotential, p)
    requires |opts| > 0 && UniqueKeys(opts) && OptsOk(opts)
    ensures AddPairParam(cfg, p, opts).Some? && WellFormed(AddPairParam(cfg, p, opts).value)
  {
    NamedIdxHead(cfg, PairPotential, p);
    var i := NamedIdx(cfg, CmdIdx(cfg, PairPotential), p)[0];
    NamedIsIdent(cfg, i, p);
    var c := WithOptions(PairParam, Str(p), opts);
    assert CommandOk(c);
    InsertCmdKeepsWellFormed(cfg, c, i + 1);
  }

  /** The name of a well-formed command is an identifier. */
  lemma NamedIsIdent(cfg: Config, i: nat, name: string)
    requires WellFormed(cfg) && i < |cfg| && Second(cfg[i]) == Scalar(Str(name))
    ensures IsIdent(name)
  {
    assert CommandOk(cfg[i]);
  }

  /** `contrain_lambda` keeps a configuration well-formed: `lambda` is an
      identifier and the product is a canonical number. */
  lemma ContrainLambdaKeepsWellFormed(cfg: Config, p0: Decimal)
    requires WellFormed(cfg) && ContrainLambda(cfg, p0).Some?
    ensures WellFormed(ContrainLambda(cfg, p0).value)
  {
    var l := Lambda(PotentialOption(cfg, "vp", "gamma").value, p0).value;
    var b := [("lambda", Num(l))];
    ContrainLambdaSets(cfg, p0, l);
    LambdaEntryOk(l);
    SetCmdOptNamedKeepsWellFormed(cfg, PairPotential, "vp", b);
  }

  lemma LambdaEntryOk(l: Decimal)
    requires Canonical(l)
    ensures OptsOk([("lambda", Num(l))])
  {
    var w := "lambda";
    assert w[0] == 'l';
    forall j | 0 <= j < |w| ensures IsIdChar(w[j]) {
      assert 'a' <= w[j] <= 'z';
    }
  }

  /** The edited configuration survives the round trip: after
      `contrain_lambda`, writing and parsing gives the edited
      configuration back. */
  lemma ContrainLambdaRoundTrip(cfg: Config, p0: Decimal)
    requires WellFormed(cfg) && ContrainLambda(cfg, p0).Some?
    ensures var r := ContrainLambda(cfg, p0).value;
      Write(r).Some? && ParseText(Write(r).value) == Parsed(r)
  {
    ContrainLambdaKeepsWellFormed(cfg, p0);
    ContrainLambdaWrites(cfg, p0);
    WriteThenParse(ContrainLambda(cfg, p0).value);
  }
}
