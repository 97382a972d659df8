/** The edit API and read-only views over a parsed configuration
    (config.py). Every edit builds a new command sequence by slicing and
    concatenation; a Python exception (`IndexError` from `[...][0]` on an
    empty list, `TypeError` from merging into something that is not an
    option set) is `None`. */
module Configuration {
  import opened Wrappers
  import opened Decimals
  import opened Ast
  import opened OrderedMaps
  import opened Seqs

  // ----- Looking commands up -----

  /** The indices `j >= i` whose command has kind `k`, in increasing order. */
  function CmdIdxFrom(cfg: Config, k: Keyword, i: nat): seq<nat>
    requires i <= |cfg|
    decreases |cfg| - i
  {
    if i == |cfg| then []
    else (if cfg[i].kind == k then [i] else []) + CmdIdxFrom(cfg, k, i + 1)
  }

  lemma {:induction false} CmdIdxFromFacts(cfg: Config, k: Keyword, i: nat)
    requires i <= |cfg|
    ensures var r := CmdIdxFrom(cfg, k, i);
      && (forall j :: j in r <==> i <= j < |cfg| && cfg[j].kind == k)
      && (forall a :: 0 <= a < |r| ==> i <= r[a] < |cfg| && cfg[r[a]].kind == k)
      && (forall a, b :: 0 <= a < b < |r| ==> r[a] < r[b])
    decreases |cfg| - i
  {
    if i < |cfg| {
      CmdIdxFromFacts(cfg, k, i + 1);
    }
  }

  /** `cmdidx`: exactly the indices of the commands of kind `k`, in
      strictly increasing order. */
  function CmdIdx(cfg: Config, k: Keyword): (r: seq<nat>)
    ensures forall j :: j in r <==> 0 <= j < |cfg| && cfg[j].kind == k
    ensures forall a :: 0 <= a < |r| ==> r[a] < |cfg| && cfg[r[a]].kind == k
    ensures forall a, b :: 0 <= a < b < |r| ==> r[a] < r[b]
  {
    CmdIdxFromFacts(cfg, k, 0);
    CmdIdxFrom(cfg, k, 0)
  }

  /** `i` is the index `[...][0]` picks: the first command of kind `k`. */
  predicate IsFirst(cfg: Config, k: Keyword, i: nat) {
    i < |cfg| && cfg[i].kind == k && forall j :: 0 <= j < i ==> cfg[j].kind != k
  }

  predicate HasKind(cfg: Config, k: Keyword) {
    exists i :: 0 <= i < |cfg| && cfg[i].kind == k
  }

  /** The head of an increasing list of exactly the matching indices is the
      first match. */
  lemma CmdIdxHead(cfg: Config, k: Keyword)
    ensures CmdIdx(cfg, k) != [] <==> HasKind(cfg, k)
    ensures CmdIdx(cfg, k) != [] ==> IsFirst(cfg, k, CmdIdx(cfg, k)[0])
  {
    var idx := CmdIdx(cfg, k);
    if HasKind(cfg, k) {
      var i :| 0 <= i < |cfg| && cfg[i].kind == k;
      assert i in idx;
    }
    if idx != [] {
      assert idx[0] < |cfg| && cfg[idx[0]].kind == k;
      forall j | 0 <= j < idx[0] ensures cfg[j].kind != k {
        BelowHead(idx, j);
      }
    }
  }

  /** A number below the head of an increasing list is not in it. */
  lemma BelowHead(idx: seq<nat>, j: nat)
    requires idx != [] && j < idx[0]
    requires forall a, b :: 0 <= a < b < |idx| ==> idx[a] < idx[b]
    ensures j !in idx
  {
    forall b | 0 <= b < |idx| ensures idx[b] != j {
      if b > 0 {
        assert idx[0] < idx[b];
      }
    }
  }

  /** The indices of `idx` whose command's second field is the name `name`:
      `[i for i in idx if cfg[i][1] == name]`. */
  function NamedIdx(cfg: Config, idx: seq<nat>, name: string): (r: seq<nat>)
    ensures forall j :: j in r <==> j in idx && j < |cfg| && Second(cfg[j]) == Scalar(Str(name))
    ensures (forall a, b :: 0 <= a < b < |idx| ==> idx[a] < idx[b]) ==>
      forall a, b :: 0 <= a < b < |r| ==> r[a] < r[b]
  {
    if idx == [] then []
    else
      var rest := NamedIdx(cfg, idx[1..], name);
      assert forall x :: x in idx[1..] ==> x in idx;
      NamedIdxCons(idx, rest);
      if idx[0] < |cfg| && Second(cfg[idx[0]]) == Scalar(Str(name)) then [idx[0]] + rest
      else rest
  }

  /** Keeping a sublist of the tail of an increasing list, with or without
      its head, keeps it increasing. */
  lemma NamedIdxCons(idx: seq<nat>, rest: seq<nat>)
    requires idx != [] && forall x :: x in rest ==> x in idx[1..]
    requires (forall a, b :: 0 <= a < b < |idx| - 1 ==> idx[1..][a] < idx[1..][b]) ==>
      forall a, b :: 0 <= a < b < |rest| ==> rest[a] < rest[b]
    ensures (forall a, b :: 0 <= a < b < |idx| ==> idx[a] < idx[b]) ==>
      && (forall a, b :: 0 <= a < b < |rest| ==> rest[a] < rest[b])
      && (forall a, b :: 0 <= a < b < |[idx[0]] + rest| ==> ([idx[0]] + rest)[a] < ([idx[0]] + rest)[b])
  {
    if forall a, b :: 0 <= a < b < |idx| ==> idx[a] < idx[b] {
      IncreasingHead(idx);
      forall a, b | 0 <= a < b < |idx| - 1 ensures idx[1..][a] < idx[1..][b] {
        assert idx[1..][a] == idx[a + 1] && idx[1..][b] == idx[b + 1];
      }
      var r := [idx[0]] + rest;
      forall a, b | 0 <= a < b < |r| ensures r[a] < r[b] {
        if a == 0 {
          assert r[b] == rest[b - 1] && rest[b - 1] in rest;
        } else {
          assert r[a] == rest[a - 1] && r[b] == rest[b - 1];
        }
      }
    }
  }

  /** In an increasing list, the head is below every later element. */
  lemma IncreasingHead(idx: seq<nat>)
    requires idx != []
    ensures (forall a, b :: 0 <= a < b < |idx| ==> idx[a] < idx[b]) ==>
      forall x :: x in idx[1..] ==> idx[0] < x
  {
    if forall a, b :: 0 <= a < b < |idx| ==> idx[a] < idx[b] {
      forall x | x in idx[1..] ensures idx[0] < x {
        var c :| 0 <= c < |idx[1..]| && idx[1..][c] == x;
        assert idx[c + 1] == x;
      }
    }
  }

  /** `i` is the index the two-selector lookup picks: the first command of
      kind `k` whose second field is the name `name`. */
  predicate IsFirstNamed(cfg: Config, k: Keyword, name: string, i: nat) {
    i < |cfg| && cfg[i].kind == k && Second(cfg[i]) == Scalar(Str(name))
    && forall j :: 0 <= j < i ==> !(cfg[j].kind == k && Second(cfg[j]) == Scalar(Str(name)))
  }

  predicate HasNamed(cfg: Config, k: Keyword, name: string) {
    exists i :: 0 <= i < |cfg| && cfg[i].kind == k && Second(cfg[i]) == Scalar(Str(name))
  }

  lemma NamedIdxHead(cfg: Config, k: Keyword, name: string)
    ensures var r := NamedIdx(cfg, CmdIdx(cfg, k), name);
      && (r != [] <==> HasNamed(cfg, k, name))
      && (r != [] ==> IsFirstNamed(cfg, k, name, r[0]))
  {
    var idx := CmdIdx(cfg, k);
    var r := NamedIdx(cfg, idx, name);
    if HasNamed(cfg, k, name) {
      var i :| 0 <= i < |cfg| && cfg[i].kind == k && Second(cfg[i]) == Scalar(Str(name));
      assert i in idx;
      assert i in r;
    }
    if r != [] {
      assert r[0] in r;
      forall j | 0 <= j < r[0] ensures !(cfg[j].kind == k && Second(cfg[j]) == Scalar(Str(name))) {
        BelowHead(r, j);
      }
    }
  }

  // ----- Edits -----

  /** Where a Python slice bound `where` falls in a sequence of length `n`:
      negative bounds count from the end, and both ends are clamped. */
  function SliceIndex(n: nat, where: int): (w: nat)
    ensures w <= n
    ensures 0 <= where <= n ==> w == where
  {
    if where < 0 then (if n + where < 0 then 0 else n + where)
    else if where > n then n
    else where
  }

  /** `insert_cmd`: `cfg[:where] + (cmd,) + cfg[where:]`. */
  function InsertCmd(cfg: Config, c: Command, where: int): (r: Config)
    ensures var w := SliceIndex(|cfg|, where);
      && |r| == |cfg| + 1 && r[w] == c
      && r[..w] == cfg[..w] && r[w + 1..] == cfg[w..]
  {
    var w := SliceIndex(|cfg|, where);
    cfg[..w] + [c] + cfg[w..]
  }

  /** Taking the inserted command out again gives back the configuration. */
  lemma InsertCmdRemove(cfg: Config, c: Command, where: int)
    ensures var w := SliceIndex(|cfg|, where);
      var r := InsertCmd(cfg, c, where);
      r[..w] + r[w + 1..] == cfg
  {
    var w := SliceIndex(|cfg|, where);
    assert cfg[..w] + cfg[w..] == cfg;
  }

  /** `cfg[:idx] + (cmd,) + cfg[idx+1:]`. */
  function Replace(cfg: Config, i: nat, c: Command): (r: Config)
    requires i < |cfg|
    ensures r == cfg[i := c]
  {
    assert cfg[..i] + [c] + cfg[i + 1..] == cfg[i := c];
    cfg[..i] + [c] + cfg[i + 1..]
  }

  /** `set_cmd_arg`: the first command of kind `k` becomes exactly
      `(k, arg)`, whatever fields it had; nothing else changes. Fails when
      there is no command of kind `k`. */
  function SetCmdArg(cfg: Config, k: Keyword, arg: Value): (r: Option<Config>)
    ensures r.Some? <==> HasKind(cfg, k)
    ensures r.Some? ==> (|r.value| == |cfg|
      && forall j :: 0 <= j < |cfg| ==> r.value[j] == if IsFirst(cfg, k, j) then Simple(k, arg) else cfg[j])
  {
    var idx := CmdIdx(cfg, k);
    CmdIdxHead(cfg, k);
    if idx == [] then None
    else
      var i := idx[0];
      assert forall j :: IsFirst(cfg, k, j) <==> j == i;
      Some(Replace(cfg, i, Simple(k, arg)))
  }

  /** One-selector `set_cmd_opt`: the first command of kind `k` becomes
      exactly `(k, merged)`, where `merged` is its last field's option set
      with `opts` written over it; nothing else changes. Fails when there is
      no such command or its last field is not an option set. */
  function SetCmdOpt(cfg: Config, k: Keyword, opts: Opts): (r: Option<Config>)
    ensures r.Some? <==> HasKind(cfg, k) && forall i: nat :: IsFirst(cfg, k, i) ==> Last(cfg[i]).Block?
    ensures r.Some? ==> (|r.value| == |cfg|
      && (forall j: nat :: IsFirst(cfg, k, j) ==> r.value[j] == OptionsOnly(k, Union(Last(cfg[j]).opts, opts)))
      && (forall j :: 0 <= j < |cfg| && !IsFirst(cfg, k, j) ==> r.value[j] == cfg[j]))
  {
    var idx := CmdIdx(cfg, k);
    CmdIdxHead(cfg, k);
    if idx == [] then None
    else
      var i := idx[0];
      assert forall j :: IsFirst(cfg, k, j) <==> j == i;
      match Last(cfg[i])
      case Block(o) => Some(Replace(cfg, i, OptionsOnly(k, Union(o, opts))))
      case Scalar(_) => None
  }

  /** Two-selector `set_cmd_opt`: the first command of kind `k` named
      `name` becomes exactly `(k, name, merged)`; nothing else changes.
      Fails when there is no such command or its last field is not an
      option set. */
  function SetCmdOptNamed(cfg: Config, k: Keyword, name: string, opts: Opts): (r: Option<Config>)
    ensures r.Some? <==> HasNamed(cfg, k, name) && forall i: nat :: IsFirstNamed(cfg, k, name, i) ==> Last(cfg[i]).Block?
    ensures r.Some? ==> (|r.value| == |cfg|
      && (forall j: nat :: IsFirstNamed(cfg, k, name, j) ==>
            r.value[j] == WithOptions(k, Str(name), Union(Last(cfg[j]).opts, opts)))
      && (forall j :: 0 <= j < |cfg| && !IsFirstNamed(cfg, k, name, j) ==> r.value[j] == cfg[j]))
  {
    var named := NamedIdx(cfg, CmdIdx(cfg, k), name);
    NamedIdxHead(cfg, k, name);
    if named == [] then None
    else
      var i := named[0];
      assert forall j :: IsFirstNamed(cfg, k, name, j) <==> j == i;
      match Last(cfg[i])
      case Block(o) => Some(Replace(cfg, i, WithOptions(k, Str(name), Union(o, opts))))
      case Scalar(_) => None
  }

  /** `add_pair_param`: `('pair_param', p, opts)` goes right after the first
      `pair_potential` named `p`. Fails when there is none. */
  function AddPairParam(cfg: Config, p: string, opts: Opts): (r: Option<Config>)
    ensures r.Some? <==> HasNamed(cfg, PairPotential, p)
    ensures r.Some? ==> forall i :: IsFirstNamed(cfg, PairPotential, p, i) ==>
      r.value == cfg[..i + 1] + [WithOptions(PairParam, Str(p), opts)] + cfg[i + 1..]
  {
    var named := NamedIdx(cfg, CmdIdx(cfg, PairPotential), p);
    NamedIdxHead(cfg, PairPotential, p);
    if named == [] then None
    else
      var i := named[0];
      assert forall j :: IsFirstNamed(cfg, PairPotential, p, j) <==> j == i;
      Some(InsertCmd(cfg, WithOptions(PairParam, Str(p), opts), i + 1))
  }

  // ----- Views -----

  /** `[cfg[i][1] for i in cmdidx(cfg, k)]`. */
  function ArgsOf(cfg: Config, k: Keyword): (r: seq<Field>)
    ensures |r| == |CmdIdx(cfg, k)|
  {
    var idx := CmdIdx(cfg, k);
    seq(|idx|, j requires 0 <= j < |idx| => Second(cfg[idx[j]]))
  }

  /** `box`: `[cfg[i][1:] for i in cmdidx(cfg, 'box')]`. */
  function BoxView(cfg: Config): (r: seq<seq<Field>>)
    ensures |r| == |CmdIdx(cfg, Box)|
    ensures forall a :: 0 <= a < |r| ==> |r[a]| > 0 && r[a][0] == ArgsOf(cfg, Box)[a]
  {
    var idx := CmdIdx(cfg, Box);
    seq(|idx|, j requires 0 <= j < |idx| => Rest(cfg[idx[j]]))
  }

  /** `[dict(cfg[i][2]) for i in idxs]`: the option sets of the commands at
      `idxs`; fails (`IndexError`) when one of them has no third field. */
  function OptsAt(cfg: Config, idxs: seq<nat>): (r: Option<seq<Opts>>)
    requires forall a :: 0 <= a < |idxs| ==> idxs[a] < |cfg|
    ensures r.Some? <==> forall a :: 0 <= a < |idxs| ==> cfg[idxs[a]].WithOptions?
    ensures r.Some? ==> (|r.value| == |idxs| && forall a :: 0 <= a < |idxs| ==> r.value[a] == cfg[idxs[a]].opts)
  {
    if idxs == [] then Some([])
    else if !cfg[idxs[0]].WithOptions? then None
    else
      match OptsAt(cfg, idxs[1..])
      case None => None
      case Some(rest) => Some([cfg[idxs[0]].opts] + rest)
  }

  /** The `(name, options)` pairs of the `pair_potential` commands, in
      document order: `zip(keys, values)`. */
  function PairPotentialItems(cfg: Config): (r: Option<seq<(Value, Opts)>>)
    ensures r.Some? <==> forall j :: 0 <= j < |cfg| && cfg[j].kind == PairPotential ==> cfg[j].WithOptions?
    ensures r.Some? ==> (|r.value| == |CmdIdx(cfg, PairPotential)|
      && forall a :: 0 <= a < |r.value| ==>
           var c := cfg[CmdIdx(cfg, PairPotential)[a]];
           r.value[a] == (c.arg, c.opts))
  {
    var idx := CmdIdx(cfg, PairPotential);
    match OptsAt(cfg, idx)
    case None => None
    case Some(values) =>
      var keys := seq(|idx|, j requires 0 <= j < |idx| => cfg[idx[j]].arg);
      Some(seq(|idx|, j requires 0 <= j < |idx| => (keys[j], values[j])))
  }

  /** `pair_potential`: each potential name mapped to its options. It
      exists when the items do, has no duplicate name, and maps each name
      to the options of the LAST `pair_potential` with that name. */
  function PairPotentialView(cfg: Config): (r: Option<seq<(Value, Opts)>>)
    ensures r.Some? <==> PairPotentialItems(cfg).Some?
    ensures r.Some? ==> UniqueKeys(r.value)
    ensures r.Some? ==> forall v :: Get(r.value, v) == LastValue(PairPotentialItems(cfg).value, v)
  {
    match PairPotentialItems(cfg)
    case None => None
    case Some(items) => Some(FromItems(items))
  }

  // ----- contrain_lambda -----

  /** `-gamma * P0`. Python's `True` counts as `1`; a string has no
      negation (`TypeError`). */
  function Lambda(gamma: Value, p0: Decimal): (r: Option<Decimal>)
    ensures r.Some? <==> !gamma.Str?
    ensures r.Some? ==> Canonical(r.value)
    ensures gamma.Num? ==> SameValue(r.value, Decimal(-(gamma.d.mant * p0.mant), gamma.d.scale + p0.scale))
    ensures gamma.Flag? ==> SameValue(r.value, Decimal(-p0.mant, p0.scale))
  {
    match gamma
    case Num(d) => Some(Mul(Neg(d), p0))
    case Flag => Some(Mul(Decimal(-1, 0), p0))
    case Str(_) => None
  }

  /** `cfg.pair_potential[name][key]`; fails (`KeyError`) when either key
      is missing. It reads option `key` of the LAST `pair_potential` named
      `name`. */
  function PotentialOption(cfg: Config, name: string, key: string): (r: Option<Value>)
    ensures var items := PairPotentialItems(cfg);
      r == if items.Some? && LastValue(items.value, Str(name)).Some?
           then Get(LastValue(items.value, Str(name)).value, key)
           else None
  {
    match PairPotentialView(cfg)
    case None => None
    case Some(view) =>
      match Get(view, Str(name))
      case None => None
      case Some(opts) => Get(opts, key)
  }

  /** `contrain_lambda`: read `gamma` of the `vp` potential through the
      `pair_potential` view, then write `lambda = -gamma * P0` into the
      first `vp` potential with the two-selector `set_cmd_opt`. It succeeds
      exactly when `gamma` of `vp` can be read through the view and is not
      a string. */
  function ContrainLambda(cfg: Config, p0: Decimal): (r: Option<Config>)
    ensures r.Some? <==>
      PotentialOption(cfg, "vp", "gamma").Some? && !PotentialOption(cfg, "vp", "gamma").value.Str?
  {
    match PotentialOption(cfg, "vp", "gamma")
    case None => None
    case Some(gamma) =>
      match Lambda(gamma, p0)
      case None => None
      case Some(l) =>
        NamedFromItems(cfg, "vp");
        PotentialsHaveOptions(cfg, "vp");
        SetCmdOptNamed(cfg, PairPotential, "vp", [("lambda", Num(l))])
  }

  // ----- Properties -----

  function Shift(s: seq<nat>, n: nat): (r: seq<nat>)
    ensures |r| == |s| && forall i :: 0 <= i < |s| ==> r[i] == s[i] + n
  {
    seq(|s|, i requires 0 <= i < |s| => s[i] + n)
  }

  lemma ShiftAppend(s: seq<nat>, t: seq<nat>, n: nat)
    ensures Shift(s + t, n) == Shift(s, n) + Shift(t, n)
  {
  }

  lemma {:induction false} CmdIdxFromShift(a: Config, b: Config, k: Keyword, j: nat)
    requires j <= |b|
    ensures CmdIdxFrom(a + b, k, |a| + j) == Shift(CmdIdxFrom(b, k, j), |a|)
    decreases |b| - j
  {
    if j < |b| {
      CmdIdxFromShift(a, b, k, j + 1);
      assert (a + b)[|a| + j] == b[j];
      var head: seq<nat> := if b[j].kind == k then [j] else [];
      assert CmdIdxFrom(b, k, j) == head + CmdIdxFrom(b, k, j + 1);
      ShiftAppend(head, CmdIdxFrom(b, k, j + 1), |a|);
      assert Shift(head, |a|) == if b[j].kind == k then [|a| + j] else [];
    }
  }

  lemma {:induction false} CmdIdxFromAppend(a: Config, b: Config, k: Keyword, i: nat)
    requires i <= |a|
    ensures CmdIdxFrom(a + b, k, i) == CmdIdxFrom(a, k, i) + Shift(CmdIdx(b, k), |a|)
    decreases |a| - i
  {
    if i == |a| {
      CmdIdxFromShift(a, b, k, 0);
    } else {
      CmdIdxFromAppend(a, b, k, i + 1);
      assert (a + b)[i] == a[i];
      var head: seq<nat> := if a[i].kind == k then [i] else [];
      assert CmdIdxFrom(a + b, k, i) == head + CmdIdxFrom(a + b, k, i + 1);
      assert CmdIdxFrom(a, k, i) == head + CmdIdxFrom(a, k, i + 1);
      AppendAssoc(head, CmdIdxFrom(a, k, i + 1), Shift(CmdIdx(b, k), |a|));
    }
  }

  /** `cmdidx` of a concatenation: the indices in the first part, then
      those in the second part moved past the first. */
  lemma CmdIdxAppend(a: Config, b: Config, k: Keyword)
    ensures CmdIdx(a + b, k) == CmdIdx(a, k) + Shift(CmdIdx(b, k), |a|)
  {
    CmdIdxFromAppend(a, b, k, 0);
  }

  /** The list views keep document order: the view of a concatenation is
      the views of its parts, one after the other, and a single command
      contributes its argument exactly when it has the viewed kind. */
  lemma ArgsOfAppend(a: Config, b: Config, k: Keyword)
    ensures ArgsOf(a + b, k) == ArgsOf(a, k) + ArgsOf(b, k)
  {
    CmdIdxAppend(a, b, k);
    var n := |CmdIdx(a, k)|;
    var l, r := ArgsOf(a + b, k), ArgsOf(a, k) + ArgsOf(b, k);
    assert |l| == |r|;
    forall j | 0 <= j < |l| ensures l[j] == r[j] {
      if j < n {
        ArgsOfLeft(a, b, k, j);
      } else {
        ArgsOfRight(a, b, k, j, j - n);
      }
    }
  }

  lemma ArgsOfLeft(a: Config, b: Config, k: Keyword, j: nat)
    requires CmdIdx(a + b, k) == CmdIdx(a, k) + Shift(CmdIdx(b, k), |a|)
    requires j < |CmdIdx(a, k)|
    ensures j < |ArgsOf(a + b, k)| && ArgsOf(a + b, k)[j] == (ArgsOf(a, k) + ArgsOf(b, k))[j]
  {
    var x := CmdIdx(a, k)[j];
    assert CmdIdx(a + b, k)[j] == x;
    assert (a + b)[x] == a[x];
  }

  lemma ArgsOfRight(a: Config, b: Config, k: Keyword, j: nat, m: nat)
    requires CmdIdx(a + b, k) == CmdIdx(a, k) + Shift(CmdIdx(b, k), |a|)
    requires m < |CmdIdx(b, k)| && j == |CmdIdx(a, k)| + m
    ensures j < |ArgsOf(a + b, k)| && ArgsOf(a + b, k)[j] == (ArgsOf(a, k) + ArgsOf(b, k))[j]
  {
    var x := CmdIdx(b, k)[m];
    assert CmdIdx(a + b, k)[j] == x + |a|;
    assert (a + b)[x + |a|] == b[x];
  }

  lemma ArgsOfSingle(c: Command, k: Keyword)
    ensures ArgsOf([c], k) == if c.kind == k then [Second(c)] else []
  {
    assert CmdIdxFrom([c], k, 1) == [];
    assert CmdIdx([c], k) == if c.kind == k then [0] else [];
  }

  /** The `box` view keeps document order too: the view of a
      concatenation is the views of its parts, and a single command
      contributes its fields after the keyword exactly when it is a `box`. */
  lemma BoxViewAppend(a: Config, b: Config)
    ensures BoxView(a + b) == BoxView(a) + BoxView(b)
  {
    CmdIdxAppend(a, b, Box);
    var n := |CmdIdx(a, Box)|;
    var l, r := BoxView(a + b), BoxView(a) + BoxView(b);
    assert |l| == |r|;
    forall j | 0 <= j < |l| ensures l[j] == r[j] {
      if j < n {
        BoxViewLeft(a, b, j);
      } else {
        BoxViewRight(a, b, j, j - n);
      }
    }
  }

  lemma BoxViewLeft(a: Config, b: Config, j: nat)
    requires CmdIdx(a + b, Box) == CmdIdx(a, Box) + Shift(CmdIdx(b, Box), |a|)
    requires j < |CmdIdx(a, Box)|
    ensures j < |BoxView(a + b)| && BoxView(a + b)[j] == (BoxView(a) + BoxView(b))[j]
  {
    var x := CmdIdx(a, Box)[j];
    assert CmdIdx(a + b, Box)[j] == x;
    assert (a + b)[x] == a[x];
  }

  lemma BoxViewRight(a: Config, b: Config, j: nat, m: nat)
    requires CmdIdx(a + b, Box) == CmdIdx(a, Box) + Shift(CmdIdx(b, Box), |a|)
    requires m < |CmdIdx(b, Box)| && j == |CmdIdx(a, Box)| + m
    ensures j < |BoxView(a + b)| && BoxView(a + b)[j] == (BoxView(a) + BoxView(b))[j]
  {
    var x := CmdIdx(b, Box)[m];
    assert CmdIdx(a + b, Box)[j] == x + |a|;
    assert (a + b)[x + |a|] == b[x];
  }

  lemma BoxViewSingle(c: Command)
    ensures BoxView([c]) == if c.kind == Box then [Rest(c)] else []
  {
    assert CmdIdxFrom([c], Box, 1) == [];
    assert CmdIdx([c], Box) == if c.kind == Box then [0] else [];
  }

  /** `set_cmd_arg` keeps every command's kind, so every lookup by kind
      gives the same indices afterwards. */
  lemma SetCmdArgKeepsKinds(cfg: Config, k: Keyword, arg: Value, k': Keyword)
    requires HasKind(cfg, k)
    ensures CmdIdx(SetCmdArg(cfg, k, arg).value, k') == CmdIdx(cfg, k')
  {
    var r := SetCmdArg(cfg, k, arg).value;
    assert forall j :: 0 <= j < |cfg| ==> r[j].kind == cfg[j].kind;
    KindsDetermineCmdIdx(cfg, r, k', 0);
  }

  lemma {:induction false} KindsDetermineCmdIdx(a: Config, b: Config, k: Keyword, i: nat)
    requires |a| == |b| && i <= |a|
    requires forall j :: 0 <= j < |a| ==> a[j].kind == b[j].kind
    ensures CmdIdxFrom(a, k, i) == CmdIdxFrom(b, k, i)
    decreases |a| - i
  {
    if i < |a| {
      var head := if a[i].kind == k then [i] else [];
      assert b[i].kind == a[i].kind;
      KindsDetermineCmdIdx(a, b, k, i + 1);
      assert CmdIdxFrom(b, k, i) == head + CmdIdxFrom(b, k, i + 1);
    }
  }

  /** Setting the argument twice is setting it once to the second value. */
  lemma SetCmdArgTwice(cfg: Config, k: Keyword, a1: Value, a2: Value)
    requires HasKind(cfg, k)
    ensures SetCmdArg(SetCmdArg(cfg, k, a1).value, k, a2) == SetCmdArg(cfg, k, a2)
  {
    var r1 := SetCmdArg(cfg, k, a1).value;
    var r2 := SetCmdArg(cfg, k, a2).value;
    CmdIdxHead(cfg, k);
    var i := CmdIdx(cfg, k)[0];
    assert IsFirst(cfg, k, i);
    assert r1[i] == Simple(k, a1);
    assert IsFirst(r1, k, i) by {
      forall j | 0 <= j < i ensures r1[j].kind != k {
        assert !IsFirst(cfg, k, j);
      }
    }
    assert HasKind(r1, k);
    var r3 := SetCmdArg(r1, k, a2).value;
    forall j | 0 <= j < |cfg| ensures r3[j] == r2[j] {
      if j != i {
        assert !IsFirst(r1, k, j) && !IsFirst(cfg, k, j);
      }
    }
    assert r3 == r2;
  }

  /** A name among the `pair_potential` items belongs to a
      `pair_potential` command. */
  lemma NamedFromItems(cfg: Config, name: string)
    requires PairPotentialItems(cfg).Some? && HasKey(PairPotentialItems(cfg).value, Str(name))
    ensures HasNamed(cfg, PairPotential, name)
  {
    var items := PairPotentialItems(cfg).value;
    var a :| 0 <= a < |items| && items[a].0 == Str(name);
    var i := CmdIdx(cfg, PairPotential)[a];
    assert items[a] == (cfg[i].arg, cfg[i].opts);
    assert 0 <= i < |cfg| && cfg[i].kind == PairPotential && Second(cfg[i]) == Scalar(Str(name));
  }

  /** When the items exist, every `pair_potential` command has options. */
  lemma PotentialsHaveOptions(cfg: Config, name: string)
    requires PairPotentialItems(cfg).Some?
    ensures forall i: nat :: IsFirstNamed(cfg, PairPotential, name, i) ==> Last(cfg[i]).Block?
  {
  }

  /** `contrain_lambda` writes into the FIRST `vp` potential (whereas it
      reads `gamma` from the last one): that command gets
      `lambda = -gamma * P0` and keeps its other options, and every other
      command is unchanged. */
  lemma ContrainLambdaWrites(cfg: Config, p0: Decimal)
    requires ContrainLambda(cfg, p0).Some?
    ensures var r := ContrainLambda(cfg, p0).value;
      var l := Lambda(PotentialOption(cfg, "vp", "gamma").value, p0).value;
      && |r| == |cfg|
      && (forall j :: 0 <= j < |cfg| && !IsFirstNamed(cfg, PairPotential, "vp", j) ==> r[j] == cfg[j])
      && (forall j: nat :: IsFirstNamed(cfg, PairPotential, "vp", j) ==>
            && r[j].WithOptions? && r[j].kind == PairPotential && r[j].arg == Str("vp")
            && Get(r[j].opts, "lambda") == Some(Num(l))
            && forall key :: key != "lambda" ==> Get(r[j].opts, key) == Get(Last(cfg[j]).opts, key))
  {
    var l := Lambda(PotentialOption(cfg, "vp", "gamma").value, p0).value;
    ContrainLambdaSets(cfg, p0, l);
    SetCmdOptNamedOne(cfg, PairPotential, "vp", "lambda", Num(l));
  }

  /** The two-selector `set_cmd_opt` with one option: the selected command
      gets that option and keeps every other, and nothing else changes. */
  lemma SetCmdOptNamedOne(cfg: Config, k: Keyword, name: string, key: string, v: Value)
    requires SetCmdOptNamed(cfg, k, name, [(key, v)]).Some?
    ensures var r := SetCmdOptNamed(cfg, k, name, [(key, v)]).value;
      && |r| == |cfg|
      && (forall j :: 0 <= j < |cfg| && !IsFirstNamed(cfg, k, name, j) ==> r[j] == cfg[j])
      && (forall j: nat :: IsFirstNamed(cfg, k, name, j) ==>
            && r[j].WithOptions? && r[j].kind == k && r[j].arg == Str(name)
            && Get(r[j].opts, key) == Some(v)
            && forall other :: other != key ==> Get(r[j].opts, other) == Get(Last(cfg[j]).opts, other))
  {
    forall j: nat | IsFirstNamed(cfg, k, name, j) {
      UnionSingle(Last(cfg[j]).opts, key, v);
    }
  }

  lemma ContrainLambdaSets(cfg: Config, p0: Decimal, l: Decimal)
    requires ContrainLambda(cfg, p0).Some?
    requires l == Lambda(PotentialOption(cfg, "vp", "gamma").value, p0).value
    ensures ContrainLambda(cfg, p0) == SetCmdOptNamed(cfg, PairPotential, "vp", [("lambda", Num(l))])
  {
  }
}
