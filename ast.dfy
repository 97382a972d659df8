/** The parsed form of a control script: commands of a closed set of kinds,
    each a tuple of one of three shapes, and their option sets. */
module Ast {
  import opened Decimals

  /** The command kinds, one per keyword rule of the lexer. */
  datatype Keyword =
    | Messages | Input | ReadCellBoundary | Timestep | Run
    | Box | Config | Constraint | Disable | Dump | Integrator | Log
    | PairPotential | PairParam | External | Population
    | Nlist

  /** The keyword as written in a script, which is also the kind string the
      parser puts first in each command tuple. */
  function KeywordText(k: Keyword): (s: string)
    ensures |s| >= 3
  {
    match k
    case Messages => "messages"
    case Input => "input"
    case ReadCellBoundary => "read_cell_boundary"
    case Timestep => "timestep"
    case Run => "run"
    case Box => "box"
    case Config => "config"
    case Constraint => "constraint"
    case Disable => "disable"
    case Dump => "dump"
    case Integrator => "integrator"
    case Log => "log"
    case PairPotential => "pair_potential"
    case PairParam => "pair_param"
    case External => "external"
    case Population => "population"
    case Nlist => "nlist"
  }

  /** Commands that take one argument and no option set. */
  const SimpleCmdTokens: seq<Keyword> := [Messages, Input, ReadCellBoundary, Timestep, Run]

  /** Commands that take a name followed by an option set. */
  const OptionsCmdTokens: seq<Keyword> :=
    [Box, Config, Constraint, Disable, Dump, Integrator, Log, PairPotential, PairParam, External, Population]

  /** The remaining command: an option set only. */
  const OtherTokens: seq<Keyword> := [Nlist]

  /** An option value or a positional argument. There is no false value:
      an absent option stands for false. */
  datatype Value = Str(s: string) | Num(d: Decimal) | Flag

  /** An option set: a Python dict from option name to value, as its items
      in insertion order. */
  type Opts = seq<(string, Value)>

  /** The three tuple shapes a command takes:
      `(kind, arg)`, `(kind, arg, opts)` and `(kind, opts)`. */
  datatype Command =
    | Simple(kind: Keyword, arg: Value)
    | WithOptions(kind: Keyword, arg: Value, opts: Opts)
    | OptionsOnly(kind: Keyword, opts: Opts)

  /** A whole script: its commands in document order. */
  type Config = seq<Command>

  /** One position of a command tuple after the kind. */
  datatype Field = Scalar(v: Value) | Block(opts: Opts)

  /** `cmd[1]`. */
  function Second(c: Command): Field {
    match c
    case Simple(_, a) => Scalar(a)
    case WithOptions(_, a, _) => Scalar(a)
    case OptionsOnly(_, o) => Block(o)
  }

  /** `cmd[-1]`. */
  function Last(c: Command): Field {
    match c
    case Simple(_, a) => Scalar(a)
    case WithOptions(_, _, o) => Block(o)
    case OptionsOnly(_, o) => Block(o)
  }

  /** `cmd[1:]`. */
  function Rest(c: Command): seq<Field> {
    match c
    case Simple(_, a) => [Scalar(a)]
    case WithOptions(_, a, o) => [Scalar(a), Block(o)]
    case OptionsOnly(_, o) => [Block(o)]
  }
}
