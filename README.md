# SAMoS control scripts: lexer, parser, edit API and generator

SAMoS reads its simulations from line-oriented control scripts: each line is
a keyword, an optional argument and an optional option block
`{key=value;...}`. The Python package around the simulator reads such a
script into a tuple of command tuples, edits that tuple (`insert_cmd`,
`set_cmd_arg`, `set_cmd_opt`, `add_pair_param`, `contrain_lambda`) and
writes it back as text. This project models that round-trip machinery in
Dafny and proves its properties:

- `Lexer` (pysamos/lexer.py). The keyword rules fire only at the start of a
  line. NUMBER is tried before ID, and an integral number becomes an
  integer. Each `\n` becomes a NEWLINE token and bumps the line counter.
  Blanks and `#` comments are dropped. An illegal character is skipped on
  its own. `Tokenize` is the `lex_file` token loop, proved equal to the
  scan function `Scan`.
- `Parser` (parser.py). The grammar is a recursive-descent parser over
  the lexer's token kinds and values. Each keyword has a fixed command
  shape. Option blocks are merged as `{**a, **b}`, blank lines are dropped,
  and any syntax error rejects the whole script.
- `Configuration` (config.py). It holds `cmdidx`, the edit operations and
  the read-only views of the `Config` tuple. The list views `messages`,
  `bounds`, `config`, `input` and `dump` are all `ArgsOf(cfg, k)` for
  their keyword `k`. `dump_opts` is `OptsAt(cfg, CmdIdx(cfg, Dump))`.
  `box` and `pair_potential` have functions of their own.
- `Generator` (pysamos/generator.py). It renders one line per command,
  and the keyword group of a command picks its layout.
- `Rendered` and `RoundTrip`. These prove the round trip
  `parse(generate(cfg)) == cfg` for every non-empty well-formed
  configuration.
  Well-formed means three things:
  - every command has the shape the grammar gives its keyword, and every
    option set is non-empty with distinct keys;
  - every name and string value is an identifier the lexer reads back as a
    single ID token;
  - every number is in canonical form.

  They also prove that the edits keep a configuration well-formed. Two
  edits are the exception: `set_cmd_arg` and the one-selector `set_cmd_opt`
  on a command with options leave a configuration that cannot be written.

Supporting modules:

- `Wrappers` holds `Option`.
- `Digits` holds decimal digit strings.
- `Decimals` holds exact decimal numbers in canonical form, which stand in
  for Python's `int`/`float` token values.
- `OrderedMaps` models Python dicts as insertion-ordered association lists.
  It includes the `{**a, **b}` merge.
- `Ast` holds keywords, keyword groups, values and the three command
  shapes: `(kind, arg)`, `(kind, arg, opts)` and `(kind, opts)`.

## Model

| member | source | states |
|---|---|---|
| Lexer.KeywordTokens | pysamos/lexer.py:7-39 | the token list names one `Kw` kind per keyword of a group, in the group's order |
| Lexer.KeywordGroups | pysamos/lexer.py:15-39 | the simple, options and `nlist` keyword groups are pairwise disjoint and together hold every keyword |
| Lexer.AllTokensOnce | pysamos/lexer.py:6-39 | `tokens` lists every token kind, and none twice |
| Lexer.GroupsDistinct | pysamos/lexer.py:15-36 | no keyword group lists a keyword twice |
| Lexer.GroupsDisjoint | pysamos/lexer.py:15-36 | no keyword belongs to two groups |
| Lexer.FirstKeyword | pysamos/lexer.py:48-130 | the keyword rules are tried in table order: the result is a keyword written at the position, and when there is none no keyword of the table is written there |
| Lexer.KeywordsDiffer | pysamos/lexer.py:48-130 | two different keywords differ within their first characters, so no keyword is a prefix of another and the table order never hides one |
| Lexer.KeywordIdChars | pysamos/lexer.py:48-130 | every keyword is made of identifier characters and starts with a lower-case letter |
| Lexer.KeywordRuleFound | pysamos/lexer.py:48-130 | a keyword written at a position is the one the rule table picks there |
| Lexer.OtherKeywordAbsent | pysamos/lexer.py:48-130 | where one keyword is written, no other keyword is written at the same position |
| Lexer.KeywordFirstChar | pysamos/lexer.py:48-130 | a written keyword starts with a lower-case letter, so it is never a blank |
| Lexer.NoKeywordAt | pysamos/lexer.py:48-130 | no keyword rule fires at a character that is not a lower-case letter |
| Lexer.KeywordAt | pysamos/lexer.py:48-130 | a keyword rule fires exactly at a line start where some keyword is written, and then the keyword it gives is the only one written there |
| Lexer.KeywordsExclusive | pysamos/lexer.py:48-130 | at most one keyword is written at any position |
| Lexer.EveryKeywordHasRule | pysamos/lexer.py:48-130 | every command keyword has a rule in the table |
| Lexer.DigitRun | pysamos/lexer.py:135 | the longest run of digits from a position |
| Lexer.IdRun | pysamos/lexer.py:141-143 | the longest run of identifier characters `[a-zA-Z\-0-9_/.]` from a position |
| Lexer.MatchNumber | pysamos/lexer.py:134-138 | a NUMBER match is non-empty, lies inside the text, is made of identifier characters and has digit strings on both sides of the point |
| Lexer.MatchNumberWhere | pysamos/lexer.py:134-135 | NUMBER matches exactly where a digit, or a point and a digit, follows the optional `-` |
| Lexer.MatchNumberText | pysamos/lexer.py:134-138 | the matched text is the sign, the digits before the point and, when there is a point, the point and the digits after it. The match is greedy: no digit follows it, and a match without a point is not followed by one |
| Lexer.NumberValue | pysamos/lexer.py:136-137 | the token value of a NUMBER literal is a canonical decimal |
| Lexer.NumberValueSame | pysamos/lexer.py:136-137 | the token value equals the exact value of the literal's digits, sign included |
| Lexer.NumberValueIntegral | pysamos/lexer.py:136-137 | the token value is an integer exactly when every digit after the point is `0` (`100.0` becomes `100`) |
| Lexer.TrailingZero | pysamos/lexer.py:136-137 | a trailing `0` after the point does not change the token value |
| Lexer.LastNonzero | pysamos/lexer.py:136-137 | a literal whose last fractional digit is not `0` keeps all of its fractional digits in its value |
| Lexer.CommentEnd | pysamos/lexer.py:157 | a `#` comment runs up to the next newline, which it does not include, or to the end of the text |
| Lexer.NextStep | pysamos/lexer.py:42-157 | every application of a rule (a token, a skipped blank, comment or illegal character) consumes at least one character and stays in the text |
| Lexer.AfterKeywords | pysamos/lexer.py:133-157 | when no keyword rule fires, NUMBER wins whenever it matches, an identifier character gives NUMBER or ID, and no keyword token comes out |
| Lexer.IdRule | pysamos/lexer.py:141-143 | ID takes the longest run of identifier characters as its text |
| Lexer.AfterId | pysamos/lexer.py:146-157 | a character that starts no NUMBER or ID gives a token exactly when it is `\n`, `=`, `{`, `}` or `;`. Only `\n` bumps the line counter. A comment is skipped up to its newline, any other character alone |
| Lexer.Scan | pysamos/lexer.py:162-173 | the scan yields at most one token per character, each at a position inside the scanned text |
| Lexer.Tokenize | pysamos/lexer.py:162-173 | the token loop returns exactly the tokens of the scan `Scan`, in order, and leaves the line counter at the scan's final line |
| Lexer.StepFacts | pysamos/lexer.py:48-157 | a token carries its position and the current line. A newline gives exactly one NEWLINE token and one more line. No other step crosses a newline. A keyword token stands at a line start where its keyword is written |
| Lexer.ScanNewlines | pysamos/lexer.py:146-149 | the NEWLINE tokens stand exactly at the newline characters, and the final line counter is the start plus the number of newlines |
| Lexer.ScanPositions | pysamos/lexer.py:162-173 | the tokens come out in strictly increasing order of position |
| Lexer.ScanTokens | pysamos/lexer.py:48-149 | each token's line is the start line plus the newlines before it. A NEWLINE token stands exactly on `\n`. A keyword token stands at a line start where its keyword is written |
| Lexer.KeywordAtLineStart | pysamos/lexer.py:48-130 | at a line start a written keyword wins over NUMBER and ID, even when identifier characters follow it |
| Lexer.WordMidLine | pysamos/lexer.py:141-143 | away from a line start a word is an ID, whether or not it is a keyword |
| Lexer.NoNumberAtWord | pysamos/lexer.py:135 | NUMBER does not match at a letter, `_` or `/` |
| Lexer.NumberBeforeId | pysamos/lexer.py:133-143 | a digit, or `-` followed by a digit, starts a NUMBER, and NUMBER wins over ID |
| Lexer.IgnoredChar | pysamos/lexer.py:156 | a space or tab emits nothing and scanning goes on at the next character |
| Lexer.CommentSkipped | pysamos/lexer.py:157 | a comment emits nothing and scanning goes on at the newline that ends it |
| Lexer.CommentNewline | pysamos/lexer.py:146-157 | the newline after a comment still gives its NEWLINE token and bumps the line counter |
| Lexer.IllegalCharSkipped | pysamos/lexer.py:151-153 | a character no rule matches emits nothing and is skipped on its own |
| Decimals.Normalize | pysamos/lexer.py:137 | dropping trailing fractional zeros gives a canonical number of the same value |
| Decimals.CanonicalUnique | pysamos/lexer.py:137 | two canonical numbers with the same value are equal, so a token value is decided by the literal's value alone (`100.0` and `100` give the same token value) |
| Decimals.Neg | config.py:103 | negation keeps a number canonical and negates its value |
| Decimals.Mul | config.py:103 | the product is canonical and has the exact value of the product of the two numbers |
| Decimals.SplitFraction | pysamos/generator.py:82-84 | integer and fractional parts of a scaled number |
| Decimals.FractionDigits | pysamos/generator.py:82-84 | the digits printed before and after the point, read together, give back the number's digits |
| Decimals.DecimalText | pysamos/generator.py:82-84 | the printed number is non-empty, starts with `-` exactly when it is negative, and has a decimal point exactly when it is not an integer |
| Digits.NatTextValue | pysamos/generator.py:82-84 | the decimal text of a natural number reads back as that number |
| Digits.NatText | pysamos/generator.py:82-84 | the decimal text of a natural number is a non-empty digit string |
| Parser.ParseRhs | parser.py:162-166 | the right-hand side of `=` is one symbol: an ID read as a string, or a NUMBER read as its value; it is never `True` |
| Parser.ParseExpr | parser.py:151-166 | an entry starts with its key. Its value is `True` exactly when no `=` follows the key |
| Parser.ParseItems | parser.py:139-148 | an entry list is non-empty and consumes at least one token |
| Parser.ParseExprSet | parser.py:171-175 | an option set is `{` ... `}`, non-empty and without repeated keys |
| Parser.ExprSetClose | parser.py:171-175 | an option set closes with `}` or with `; }` right after its entry list, and nowhere else; either way its value is the merged entries |
| Parser.FromItemsShape | parser.py:139-148 | merging a non-empty entry list gives a non-empty set without repeated keys |
| Parser.ParseCommand | parser.py:51-133 | a command starts with its keyword and has the shape its keyword gives it |
| Parser.ParseStatement | parser.py:39-46 | a statement ends with NEWLINE, and a blank line is one token long |
| Parser.ParseProgram | parser.py:13-26 | every command of a parsed program has the shape the grammar gives it |
| Parser.Parse | parser.py:191-194 | a parsed script holds only commands in their grammatical shapes |
| Parser.ParseText | parser.py:191-194 | an accepted script holds only grammatical commands and contains a newline |
| Parser.BlankLineDropped | parser.py:44-46 | a blank line contributes nothing to the program |
| Parser.ProgramEndsWithNewline | parser.py:39-41 | an accepted token stream ends with NEWLINE |
| Parser.ParsedEndsWithNewline | parser.py:39-41 | a last command without its newline is a syntax error |
| Parser.EmptyBlockRejected | parser.py:171-175 | `{}` is not an option set |
| Parser.NumberForStrRejected | parser.py:180-182 | a NUMBER where a name is expected is a syntax error |
| Parser.ExprSetLastWins | parser.py:139-148 | a block's keys are exactly the keys written, each takes the last value written for it, and keys keep the order of their first occurrence |
| OrderedMaps.Find | parser.py:148 | the position of a key's entry, found exactly when the key is present |
| OrderedMaps.Get | parser.py:148 | a dict lookup succeeds exactly when the key is present |
| OrderedMaps.LastValue | parser.py:148 | the last value written for a key, present exactly when the key is |
| OrderedMaps.Put | config.py:69 | writing a key: an existing key keeps its place, a new key goes last, and the key reads the new value |
| OrderedMaps.PutGetOther | config.py:69 | writing one key leaves every other key's value as it was |
| OrderedMaps.PutUnique | config.py:69 | writing a key never duplicates a key |
| OrderedMaps.PutHasKey | config.py:69 | after writing a key, the keys present are the old ones and that key |
| OrderedMaps.Union | parser.py:148 | the keys of `{**a, **b}` are those of `a` and those of `b` |
| OrderedMaps.FromItems | parser.py:148 | `dict(items)` has no repeated key, and each key reads its last value in `items` |
| OrderedMaps.UnionGet | parser.py:148 | in `{**a, **b}` a key of `b` takes its last value in `b`, and any other key keeps its value in `a` |
| OrderedMaps.UnionSingle | config.py:104 | `{**a, {k: v}}` reads `v` at `k` and `a`'s values elsewhere |
| OrderedMaps.UnionFrom | config.py:73 | every entry of `{**a, **b}` is an entry of `a` or of `b` |
| OrderedMaps.UnionKeepsPositions | config.py:69 | the keys of `a` keep their positions in `{**a, **b}` |
| OrderedMaps.UnionUnique | config.py:69 | `{**a, **b}` has no repeated key |
| OrderedMaps.UnionNewKeys | config.py:69 | the entries after `a`'s are exactly keys of `b` that are new to `a` |
| OrderedMaps.UnionNewOrder | config.py:69 | the new keys are appended in the order of their first occurrence in `b` |
| OrderedMaps.UnionDistinct | parser.py:148 | merging entries with distinct keys just concatenates them |
| Configuration.CmdIdxFromFacts | config.py:48-50 | from a start index: exactly the later indices of kind `k`, increasing |
| Configuration.CmdIdx | config.py:48-50 | `cmdidx` lists exactly the indices of the commands of kind `k`, in strictly increasing order |
| Configuration.CmdIdxHead | config.py:60 | the first index of `cmdidx` exists exactly when a command of that kind exists, and it is the first such command |
| Configuration.NamedIdx | config.py:72 | exactly the indices of the list whose command has the given name as second field, order kept |
| Configuration.NamedIdxHead | config.py:72 | the first such index exists exactly when such a command exists, and it is the first one |
| Configuration.SliceIndex | config.py:55 | a slice bound counts negative values from the end and is clamped to the sequence |
| Configuration.InsertCmd | config.py:53-55 | `insert_cmd` grows the configuration by one with the command at the slice position, and everything before and after is kept |
| Configuration.InsertCmdRemove | config.py:53-55 | removing the inserted command gives back the configuration |
| Configuration.Replace | config.py:62 | `cfg[:i] + (c,) + cfg[i+1:]` is the configuration with position `i` replaced |
| Configuration.SetCmdArg | config.py:58-62 | `set_cmd_arg` succeeds exactly when the kind occurs. The first command of that kind becomes exactly `(k, arg)`, and length and every other position are kept |
| Configuration.SetCmdOpt | config.py:65-70 | the one-selector `set_cmd_opt` succeeds exactly when the kind occurs and its last field is an option set. That command becomes exactly `(k, merged)`, nothing else changes |
| Configuration.SetCmdOptNamed | config.py:71-75 | the two-selector form succeeds exactly when a command of that kind and name exists and its last field is an option set. The first such command becomes `(k, name, merged)`, nothing else changes |
| Configuration.AddPairParam | config.py:90-93 | `add_pair_param` succeeds exactly when a `pair_potential` of that name exists, and inserts `('pair_param', p, opts)` right after the first one |
| Configuration.ArgsOf | config.py:10-32 | a list view has one element per command of its kind |
| Configuration.BoxView | config.py:14-16 | the `box` view has one element per `box` command, and each is that command's fields after the kind, starting with its argument |
| Configuration.OptsAt | config.py:34-37 | the option sets of the given commands, failing exactly when one of them is not of the `(kind, arg, opts)` shape (has no third field), even a `(kind, opts)` command that carries an option set |
| Configuration.PairPotentialItems | config.py:39-44 | the `(name, options)` pairs of the `pair_potential` commands, in document order, failing exactly when one of them is not of the `(kind, arg, opts)` shape (has no third field) |
| Configuration.PairPotentialView | config.py:39-44 | the `pair_potential` view exists exactly when the items do. It has no repeated name, and maps each name to the options of the last command with that name |
| Configuration.PotentialOption | config.py:103 | `cfg.pair_potential[name][key]` reads option `key` of the last `pair_potential` named `name`, and fails when either is missing |
| Configuration.ContrainLambda | config.py:96-104 | `contrain_lambda` succeeds exactly when `gamma` of `vp` can be read through the view and is not a string |
| Configuration.Lambda | config.py:103 | `-gamma * P0` fails exactly for a string `gamma`. Otherwise it is canonical and has the value of `-gamma * P0`, with `True` counting as 1 |
| Configuration.CmdIdxAppend | config.py:48-50 | `cmdidx` of a concatenation is the indices in the first part followed by those of the second part, shifted |
| Configuration.ArgsOfAppend | config.py:10-32 | a list view of a concatenation is the views of the parts in order, so views keep document order |
| Configuration.ArgsOfSingle | config.py:10-32 | a single command contributes its argument exactly when it has the viewed kind |
| Configuration.BoxViewAppend | config.py:14-16 | the `box` view of a concatenation is the views of the parts in order |
| Configuration.BoxViewSingle | config.py:14-16 | a single command contributes its fields after the kind exactly when it is a `box` |
| Configuration.SetCmdArgKeepsKinds | config.py:58-62 | `set_cmd_arg` keeps every kind, so every `cmdidx` lookup is unchanged |
| Configuration.KindsDetermineCmdIdx | config.py:48-50 | `cmdidx` depends only on the kinds of the commands |
| Configuration.SetCmdArgTwice | config.py:58-62 | setting an argument twice is the same as setting it once to the second value |
| Configuration.NamedFromItems | config.py:39-44 | a name in the view belongs to a `pair_potential` command |
| Configuration.PotentialsHaveOptions | config.py:39-44 | when the view exists, every `pair_potential` has the `(kind, arg, opts)` shape |
| Configuration.ContrainLambdaWrites | config.py:96-104 | only the first `vp` potential changes. It gets `lambda = -gamma * P0` and keeps all other options, and every other command is unchanged |
| Configuration.SetCmdOptNamedOne | config.py:71-75 | the two-selector `set_cmd_opt` with one option gives the selected command that option, keeps its other options, and changes nothing else |
| Generator.EntryText | pysamos/generator.py:72-79 | an entry's text starts with its key; it is the bare key exactly when the value is `True`, and otherwise `=` follows the key |
| Generator.GCommand | pysamos/generator.py:24-47 | `g_command` succeeds exactly when the command has the shape its keyword's group calls for (a simple command whose argument is an empty option set raises `IndexError`), and its text starts with the keyword and a space |
| Generator.OptsText | pysamos/generator.py:51-55 | an option set renders inside braces, and an empty one as `{}` |
| Generator.JoinEntriesAppend | pysamos/generator.py:53-54 | the `;`-join of two non-empty entry lists is the joins of each with one `;` between |
| Generator.FieldText | pysamos/generator.py:35-37 | the argument of a simple command renders unless it is an empty option set |
| Generator.FieldTextFirstOnly | pysamos/generator.py:35-37 | of an option set in argument position only the first entry is rendered |
| Generator.Lines | pysamos/generator.py:13 | the written text is empty exactly when there are no lines, and otherwise ends with a newline |
| Generator.GProgram | pysamos/generator.py:16-19 | one line per command, in order, and it fails exactly when one command cannot be rendered |
| Generator.Write | pysamos/generator.py:9-13 | writing fails exactly when some command cannot be rendered |
| Generator.LinesAppend | pysamos/generator.py:13 | the newline-terminated lines of two lists are the lines of each, one after the other |
| Generator.GProgramAppend | pysamos/generator.py:16-19 | the lines of a concatenation are the lines of its parts |
| Generator.WriteAppend | pysamos/generator.py:9-19 | the text of a concatenation is the texts of its parts, one after the other |
| Generator.WriteSingle | pysamos/generator.py:9-13 | a single command is written as its line followed by `\n` |
| Rendered.RenderShape | pysamos/generator.py:24-47 | a command in its grammatical shape renders in the layout of its group |
| Rendered.LineText | pysamos/generator.py:13 | each written line ends with `\n` |
| Rendered.LineIsGCommand | pysamos/generator.py:24-47 | for a grammatical command, that line is `g_command`'s text plus `\n` |
| Rendered.SimpleLine | pysamos/generator.py:35-37 | a `kind arg` line at a line start lexes as the keyword, the argument and NEWLINE |
| Rendered.WithOptionsLine | pysamos/generator.py:40-42 | a `kind arg {opts}` line lexes as the keyword, the argument, the option-set tokens and NEWLINE |
| Rendered.OptionsOnlyLine | pysamos/generator.py:45-47 | a `kind {opts}` line lexes as the keyword, the option-set tokens and NEWLINE |
| Rendered.RenderedIsWrite | pysamos/generator.py:9-19 | a well-formed configuration is written as its lines, one after the other |
| Rendered.LexedIsScan | pysamos/lexer.py:162-173 | the symbols the lexer yields from a position are the kinds and values of the scanned tokens |
| Rendered.KeywordPiece | pysamos/lexer.py:48-130 | a keyword written at a line start lexes as its keyword token |
| Rendered.IdentPiece | pysamos/lexer.py:141-143 | an identifier written mid-line and followed by a non-identifier character lexes as one ID token with that text |
| Rendered.MatchDecimal | pysamos/lexer.py:134-138 | the printed form of a canonical number is one NUMBER match whose value is that number |
| Rendered.NumberPiece | pysamos/lexer.py:134-138 | a printed canonical number lexes as one NUMBER token with that value |
| Rendered.LexRendered | pysamos/generator.py:9-19 | a well-formed configuration can be written, and its text lexes as keyword, argument, option-set tokens and NEWLINE, command by command |
| RoundTrip.RhsReadsOneSym | parser.py:162-166 | the right-hand side reads one symbol, an ID or a NUMBER, never `True`, and the value it reads is written as exactly that symbol |
| RoundTrip.RhsReadsValue | parser.py:162-166 | a written value reads back as itself, except `True`, which comes back as the string `"True"` |
| RoundTrip.IdentParses | parser.py:180-182 | an identifier written mid-line reads back through the lexer and `str : ID` as itself |
| RoundTrip.NumberParses | parser.py:131-133 | a printed canonical number reads back through the lexer and the NUMBER rule as itself |
| RoundTrip.ValueTextParses | pysamos/generator.py:60-94 | `g_expr` of a value, lexed and read as a right-hand side, gives the value back, and `True` as the string `"True"` |
| RoundTrip.EntryTextParses | pysamos/generator.py:72-79 | `g_expr_assignment` of an entry, lexed and read as `expr`, gives the entry back; a bare key reads back as `True` |
| RoundTrip.EntryParses | parser.py:151-166 | a written entry parses back as itself, and a bare key parses as `True` |
| RoundTrip.ItemsParse | parser.py:139-148 | a written non-empty entry list parses back as the same list |
| RoundTrip.ExprSetParses | parser.py:171-175 | a written option set with distinct keys parses back as itself |
| RoundTrip.FromDistinctItems | parser.py:148 | merging entries with distinct keys gives the entries back |
| RoundTrip.CommandParses | parser.py:51-133 | a written well-formed command parses back as itself, in its shape |
| RoundTrip.SimpleParses | parser.py:51-133 | a written `(kind, arg)` command parses back as itself |
| RoundTrip.WithOptionsParses | parser.py:51-133 | a written `(kind, arg, opts)` command parses back as itself |
| RoundTrip.OptionsOnlyParses | parser.py:71-73 | a written `(kind, opts)` command parses back as itself |
| RoundTrip.StatementParses | parser.py:39-41 | a written command line parses as that command |
| RoundTrip.ProgramParses | parser.py:13-26 | the symbols of a well-formed configuration parse back as that configuration |
| RoundTrip.WriteThenParse | parser.py:191-194 | `parse(generate(cfg)) == cfg` for every well-formed non-empty configuration. The empty one gives the syntax error of an empty program |
| RoundTrip.CommandRoundTrip | pysamos/generator.py:24-47 | `g_command` renders every well-formed command, and its line parses back as that one command |
| RoundTrip.UnionOk | config.py:69 | merging well-formed option sets gives a well-formed, non-empty set without repeated keys |
| RoundTrip.InsertCmdKeepsWellFormed | config.py:53-55 | inserting a well-formed command keeps a configuration well-formed |
| RoundTrip.SetCmdArgKeepsWellFormed | config.py:58-62 | setting a simple command's argument to a value of its type keeps a configuration well-formed |
| RoundTrip.SetCmdArgOnOptionsKind | config.py:58-62 | `set_cmd_arg` on a command with options leaves `(k, arg)`, which cannot be written |
| RoundTrip.UnwritableCommand | pysamos/generator.py:16-19 | one command that cannot be rendered makes writing fail |
| RoundTrip.SetCmdOptOnOptionsKind | config.py:67-70 | the one-selector `set_cmd_opt` on a command of the options group leaves `(k, merged)`, which cannot be written |
| RoundTrip.SetCmdOptNlistKeepsWellFormed | config.py:67-70 | the one-selector `set_cmd_opt` on `nlist` keeps a configuration well-formed |
| RoundTrip.SetCmdOptNamedKeepsWellFormed | config.py:71-75 | the two-selector `set_cmd_opt` keeps a configuration well-formed |
| RoundTrip.AddPairParamKeepsWellFormed | config.py:90-93 | `add_pair_param` with a non-empty option set keeps a configuration well-formed |
| RoundTrip.ContrainLambdaKeepsWellFormed | config.py:96-104 | `contrain_lambda` keeps a configuration well-formed |
| RoundTrip.ContrainLambdaRoundTrip | config.py:96-104 | after `contrain_lambda`, writing and parsing gives back the edited configuration |

## Left out

- File I/O is left out: the `open` in `lex_file`, `parse_file`, and the file written by `write`. `Tokenize` takes the text, and `Write` returns it.
- The `print` diagnostics of `t_error` and `p_error` are left out.
- ply's table construction and its error recovery are left out. The parser is an all-or-nothing function: `SyntaxError` stands for whatever `parse` does with a text the grammar rejects. There are four such outcomes:
  - Leading tokens that cannot begin a statement are dropped one by one, and the rest is parsed normally. This happens while ply's stack holds only its start state, and the error rule `program : error` (parser.py:30-33) does not fire. So the source returns `(('run', 1),)` for `"}\nrun 1\n"`, `(('run', 2),)` for `"  run 1\nrun 2\n"` (whose first line lexes as ID NUMBER NEWLINE), and `()` for `"}\n"`, while the model gives `SyntaxError` for each.
  - An error at the end of input makes ply return `None`.
  - An error followed by a later command makes `p_program` add a tuple to the `[]` of the error rule, which raises `TypeError` (parser.py:26).
  - An error followed by nothing but blank lines gives `[]`.
- ply token objects keep only kind, value, line and position.
- The lexer object keeps its line counter between inputs. `Tokenize` takes the starting counter as a parameter instead.
- Python floats are replaced by exact decimals. `str(float)` exponent forms such as `1e-05`, which the lexer cannot read back, and float rounding are not modelled.
- Decimals.Mul: the `-gamma * P0` of `contrain_lambda` is computed exactly, without float rounding.
- Configuration.Lambda: the product is kept in canonical form, so an integral product is written as `lambda=-3`. In the source a float `P0` makes `lambda` a float, written as `lambda=-3.0`. Both texts lex to the same token value.
- Digits.IsDigit: only the ASCII digits `0`-`9` are digits. In the source `\d` of the NUMBER rule matches every Unicode decimal digit and `float` accepts them, so `run ٣` gives the NUMBER 3 there. Here such a character is illegal and is skipped.
- Command kinds form a closed set of seventeen keywords. `insert_cmd` with a tuple whose kind is another string is not modelled.
- An option value `False` is not modelled. It would render as `key=False`, which parses back as a string.
- `set_cmd_opt` with other than one or two selectors is not modelled. In the source it fails with an unbound `idx`.
- Keyword arguments of `set_cmd_opt` and `add_pair_param` are option sets whose keys may be any string.
- A failure of the source (an `IndexError`, `KeyError`, `AttributeError` or `TypeError`) is a `None` result. The kind of exception is not recorded.
- Positions and line numbers of tokens are not carried into the parser's result. The source uses them only for diagnostics.
- The keyword rules are read with the semantics of Python 3.10 and earlier, where the `(?m)` inside each `(?m)^keyword` rule applies to ply's whole master pattern. Python 3.11 and later reject a global flag that is not at the start of the pattern, so there ply cannot build this lexer at all.
- The source distinguishes the plain tuple that `parse` returns from the `Config` tuple subclass that carries the views (`pair_potential`, `messages`, ...). Calling `contrain_lambda` on the unwrapped result of `parse` raises `AttributeError` there. The model has one `Config` type for both, so that failure is not modelled.
