/** Rendering a configuration back to script text (pysamos/generator.py):
    one line per command, its shape chosen by the keyword group of its
    kind. Where the Python code raises (`IndexError` on a missing field or
    an empty option set, `AttributeError` on a field that is not an option
    set), the result is `None`. */
module Generator {
  import opened Wrappers
  import opened Digits
  import opened Decimals
  import opened Ast

  /** `g_expr` of a scalar: a string verbatim, a number as `str` prints it,
      `True` as `True`. */
  function ValueText(v: Value): string {
    match v
    case Str(s) => s
    case Num(d) => DecimalText(d)
    case Flag => "True"
  }

  /** `g_expr_assignment` of a one-entry dict: the bare key when the value
      is `True`, else `key=value`. */
  function EntryText(e: (string, Value)): (r: string)
    ensures |r| >= |e.0| && r[..|e.0|] == e.0
    ensures |r| == |e.0| <==> e.1 == Flag
    ensures |r| > |e.0| ==> r[|e.0|] == '='
  {
    if e.1 == Flag then e.0 else e.0 + "=" + ValueText(e.1)
  }

  /** `';'.join(...)` of the entries, in the option set's own order. */
  function JoinEntries(o: Opts): string {
    if o == [] then ""
    else if |o| == 1 then EntryText(o[0])
    else EntryText(o[0]) + ";" + JoinEntries(o[1..])
  }

  /** `g_opts`: the entries wrapped in braces; `{}` when there are none. */
  function OptsText(o: Opts): (r: string)
    ensures |r| >= 2 && r[0] == '{' && r[|r| - 1] == '}'
    ensures o == [] ==> r == "{}"
  {
    "{" + JoinEntries(o) + "}"
  }

  /** `g_expr(cmd[1])`: a scalar, or for an option set only its first
      entry; an empty option set has none (`IndexError`). */
  function FieldText(f: Field): (r: Option<string>)
    ensures r.None? <==> f == Block([])
  {
    match f
    case Scalar(v) => Some(ValueText(v))
    case Block(o) => if o == [] then None else Some(EntryText(o[0]))
  }

  /** `g_command`: `kind arg` for the simple commands, `kind arg {opts}` for
      the commands with options, `kind {opts}` for the rest. */
  function GCommand(c: Command): (r: Option<string>)
    ensures r.Some? <==>
      if c.kind in SimpleCmdTokens then Second(c) != Block([])
      else if c.kind in OptionsCmdTokens then c.WithOptions?
      else c.OptionsOnly?
    ensures r.Some? ==> var kw := KeywordText(c.kind);
      |r.value| > |kw| && r.value[..|kw|] == kw && r.value[|kw|] == ' '
  {
    var kw := KeywordText(c.kind);
    if c.kind in SimpleCmdTokens then
      match FieldText(Second(c))
      case Some(t) => Some(kw + " " + t)
      case None => None
    else if c.kind in OptionsCmdTokens then
      match c
      case WithOptions(_, a, o) => Some(kw + " " + ValueText(a) + " " + OptsText(o))
      case _ => None
    else
      match c
      case OptionsOnly(_, o) => Some(kw + " " + OptsText(o))
      case _ => None
  }

  /** `g_program`: one line per command, in configuration order; fails as
      soon as one command cannot be rendered. */
  function GProgram(cfg: Config): (r: Option<seq<string>>)
    ensures r.Some? <==> forall i :: 0 <= i < |cfg| ==> GCommand(cfg[i]).Some?
    ensures r.Some? ==> |r.value| == |cfg| && forall i :: 0 <= i < |cfg| ==> GCommand(cfg[i]) == Some(r.value[i])
  {
    if cfg == [] then Some([])
    else
      match GCommand(cfg[0])
      case None => None
      case Some(line) =>
        match GProgram(cfg[1..])
        case None => None
        case Some(rest) => Some([line] + rest)
  }

  /** Each line followed by `\n`, as `write` puts them in the file: the
      text is empty exactly when there are no lines, and otherwise ends
      with a newline. */
  function Lines(ls: seq<string>): (r: string)
    ensures ls == [] <==> r == []
    ensures ls != [] ==> r[|r| - 1] == '\n'
  {
    if ls == [] then "" else ls[0] + "\n" + Lines(ls[1..])
  }

  /** The text `write` puts in the file. */
  function Write(cfg: Config): (r: Option<string>)
    ensures r.Some? <==> forall i :: 0 <= i < |cfg| ==> GCommand(cfg[i]).Some?
  {
    match GProgram(cfg)
    case None => None
    case Some(ls) => Some(Lines(ls))
  }

  // ----- Properties -----

  /** `';'.join` of two non-empty lists: the joins of each, with one `;`
      between them. */
  lemma {:induction false} JoinEntriesAppend(a: Opts, b: Opts)
    requires a != [] && b != []
    ensures JoinEntries(a + b) == JoinEntries(a) + ";" + JoinEntries(b)
    decreases |a|
  {
    assert (a + b)[0] == a[0];
    if |a| == 1 {
      assert (a + b)[1..] == b;
    } else {
      assert (a + b)[1..] == a[1..] + b;
      JoinEntriesAppend(a[1..], b);
    }
  }

  /** Only the first entry of an option set in argument position is
      rendered: the others are dropped. */
  lemma FieldTextFirstOnly(o: Opts)
    requires o != []
    ensures FieldText(Block(o)) == FieldText(Block([o[0]]))
  {
  }

  lemma {:induction false} LinesAppend(a: seq<string>, b: seq<string>)
    ensures Lines(a + b) == Lines(a) + Lines(b)
  {
    if a == [] {
      assert a + b == b;
    } else {
      assert (a + b)[0] == a[0];
      assert (a + b)[1..] == a[1..] + b;
      LinesAppend(a[1..], b);
    }
  }

  lemma GProgramAppend(a: Config, b: Config)
    ensures GProgram(a + b) ==
      if GProgram(a).Some? && GProgram(b).Some? then Some(GProgram(a).value + GProgram(b).value) else None
  {
    var ab := a + b;
    if GProgram(a).Some? && GProgram(b).Some? {
      var la, lb := GProgram(a).value, GProgram(b).value;
      forall i | 0 <= i < |ab| ensures GCommand(ab[i]) == Some((la + lb)[i]) {
        if i < |a| {
          assert ab[i] == a[i];
        } else {
          assert ab[i] == b[i - |a|];
        }
      }
      var l := GProgram(ab).value;
      assert l == la + lb;
    } else if GProgram(a).None? {
      var i :| 0 <= i < |a| && GCommand(a[i]).None?;
      assert ab[i] == a[i];
    } else {
      var i :| 0 <= i < |b| && GCommand(b[i]).None?;
      assert ab[|a| + i] == b[i];
    }
  }

  /** Rendering works command by command: the text of a concatenation is
      the texts of its parts, one after the other, and a single command is
      its own line followed by a newline. */
  lemma WriteAppend(a: Config, b: Config)
    ensures Write(a + b) == if Write(a).Some? && Write(b).Some? then Some(Write(a).value + Write(b).value) else None
  {
    GProgramAppend(a, b);
    if GProgram(a).Some? && GProgram(b).Some? {
      LinesAppend(GProgram(a).value, GProgram(b).value);
    }
  }

  lemma WriteSingle(c: Command)
    ensures Write([c]) == if GCommand(c).Some? then Some(GCommand(c).value + "\n") else None
  {
    assert [c][0] == c && [c][1..] == [];
    assert GProgram([]) == Some([]);
    if GCommand(c).Some? {
      var line := GCommand(c).value;
      assert [line] + [] == [line];
      assert GProgram([c]) == Some([line] + []);
      assert [line][0] == line && [line][1..] == [];
      assert Lines([line]) == line + "\n" + Lines([]);
      assert line + "\n" + "" == line + "\n";
    }
  }
}
