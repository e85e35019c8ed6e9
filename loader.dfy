/**
  The loader (loader.go): binding every descriptor to its flag and environment
  variable, checking the required ones, and copying resolved values into a
  destination struct.

  The package-level state of the source (the `values` table and the process-wide
  flag set) is the class `Registry`. The schema is a sequence of (name, descriptor)
  pairs; the source iterates a Go map, whose order is unspecified, so nothing here
  depends on the order of the sequence except the order of the reported errors,
  which is only promised up to permutation.
 */
module Loading {
  import opened Scalars
  import opened Decimal
  import opened Flags
  import opened Values
  import opened Arguments
  import opened ArgErrors
  import opened Targets

  type Schema = seq<(string, Descriptor)>

  // ---------------------------------------------------------------------------
  // Environment

  /** os.Getenv: a variable that is not set reads as "". */
  function Getenv(env: map<string, string>, name: string): string {
    if name in env then env[name] else ""
  }

  /** errNoEnvVar, or the error strconv.ParseUint returns. */
  datatype EnvError = NoEnvVar | BadNumber

  /** loadEnv: an unset or empty variable is errNoEnvVar; a uint-family descriptor
      parses the text base 10 into a uint64; any other type keeps the text as it is. */
  function LoadEnv(a: Argument, env: map<string, string>): (r: Result<Scalar, EnvError>)
    ensures r == Err(NoEnvVar) <==> Getenv(env, a.envName) == ""
    ensures r.Ok? && IsUintType(a.typ) ==> r.value.U? && ParseUint(Getenv(env, a.envName)) == Some(r.value.n)
    ensures r == Err(BadNumber) <==>
              Getenv(env, a.envName) != "" && IsUintType(a.typ) && ParseUint(Getenv(env, a.envName)).None?
    ensures r.Ok? && !IsUintType(a.typ) ==> r.value == Str(Getenv(env, a.envName))
  {
    var text := Getenv(env, a.envName);
    if text == "" then Err(NoEnvVar)
    else if IsUintType(a.typ) then
      match ParseUint(text)
      case Some(n) => Ok(U(n))
      case None => Err(BadNumber)
    else Ok(Str(text))
  }

  // ---------------------------------------------------------------------------
  // Flags

  /** The value loadFlag registers as the flag's default, or its "invalid" error: a
      uint-family descriptor needs a JSON number (a float64 in the source), any other
      descriptor registers its default text, "" for a nil or empty default. */
  function FlagDefault(a: Descriptor): (r: Result<Scalar, string>)
    ensures IsUintType(a.typ) ==> (r.Ok? <==> a.default.Num?)
    ensures IsUintType(a.typ) && r.Ok? ==> r.value == U(a.default.x)
    ensures r.Err? ==> r.error == "invalid"
    ensures !IsUintType(a.typ) ==> r.Ok? && r.value == if a.default.Str? then a.default else Str("")
  {
    if IsUintType(a.typ) then
      if a.default.Num? then Ok(U(a.default.x)) else Err("invalid")
    else
      Ok(Str(if IsZeroValue(a.default) then "" else a.default.s))
  }

  /** The text the flag package records as a flag's default (DefValue). */
  function DefValueText(d: Scalar): string {
    match d
    case U(n) => FormatUint(n)
    case Str(s) => s
    case _ => ""
  }

  /** loadFlag: registers a uint64 or a string flag named after the descriptor, with its
      default and its description, and returns the flag's storage; a uint-family
      descriptor without a numeric default is "invalid" and registers nothing. */
  method LoadFlag(a: Descriptor, flags: FlagSet) returns (r: Result<FlagCell, string>)
    requires flags.Valid()
    requires FlagDefault(a).Ok? ==> a.flagName !in flags.formal
    modifies flags
    ensures flags.Valid()
    ensures FlagDefault(a).Err? ==> r == Err("invalid") && unchanged(flags)
    ensures FlagDefault(a).Ok? ==>
              && r.Ok? && fresh(r.value) && r.value.val == FlagDefault(a).value && r.value.init == FlagDefault(a).value
              && flags.formal ==
                 old(flags.formal)[a.flagName := Flag(a.description, r.value, DefValueText(FlagDefault(a).value))]
              && flags.Repr == old(flags.Repr) + {r.value}
  {
    if IsUintType(a.typ) {
      if !a.default.Num? {
        return Err("invalid");
      }
      var p := flags.Uint64(a.flagName, a.default.x, a.description);
      r := Ok(p);
    } else {
      var def := if IsZeroValue(a.default) then "" else a.default.s;
      var p := flags.String(a.flagName, def, a.description);
      r := Ok(p);
    }
  }

  // ---------------------------------------------------------------------------
  // What binding the sources does to one descriptor

  /** The descriptor gets a flag registered. */
  predicate Registers(c: Descriptor) {
    c.flagName != "" && FlagDefault(c).Ok?
  }

  /** UseEnv as load sets it: the variable is named and set to a non-empty text. */
  predicate UseEnv(c: Descriptor, env: map<string, string>) {
    c.envName != "" && LoadEnv(c, env) != Err(NoEnvVar)
  }

  /** The descriptor survives binding: its flag default (if any) is valid, and its
      environment variable (if any) is unset or parses. */
  predicate Admitted(c: Descriptor, env: map<string, string>) {
    && (c.flagName != "" ==> FlagDefault(c).Ok?)
    && !(UseEnv(c, env) && LoadEnv(c, env).Err?)
  }

  /** The value Env receives. */
  function EnvValue(c: Descriptor, env: map<string, string>): Scalar {
    if c.envName != "" && LoadEnv(c, env).Ok? then LoadEnv(c, env).value else Nil
  }

  /** The flag storage registered for the descriptor, or null. */
  function CellFor(c: Descriptor, formal: map<string, Flag>): FlagCell? {
    if c.flagName != "" && c.flagName in formal then formal[c.flagName].cell else null
  }

  /** The table entry load builds for an admitted descriptor, with the given flag
      storage. The source writes `value{... Default: c.Default}` (loader.go:70), a
      field `value` does not have; the evident intent, `Fallback: c.Default`, is
      what is modelled. */
  function Entry(c: Descriptor, env: map<string, string>, cell: FlagCell?): Value {
    Value(UseEnv(c, env), cell, EnvValue(c, env), c.default, c.typ)
  }

  /** The entries binding adds to the table, given the registered flags. */
  function Loaded(cfg: Schema, env: map<string, string>, formal: map<string, Flag>): map<string, Value>
    decreases |cfg|
  {
    if cfg == [] then map[]
    else
      var m := Loaded(cfg[..|cfg| - 1], env, formal);
      var (name, c) := cfg[|cfg| - 1];
      if Admitted(c, env) then m[name := Entry(c, env, CellFor(c, formal))] else m
  }

  /** The flags binding registers: each flag name with the descriptor that registered
      it. */
  function Declared(cfg: Schema): map<string, Descriptor>
    decreases |cfg|
  {
    if cfg == [] then map[]
    else
      var m := Declared(cfg[..|cfg| - 1]);
      var c := cfg[|cfg| - 1].1;
      if Registers(c) then m[c.flagName := c] else m
  }

  /** The registry holds, for every declared flag, the default, the default text and the
      usage text of the descriptor that declared it, and none of those names was taken
      before. */
  ghost predicate FlagsDeclared(d: map<string, Descriptor>, taken: map<string, Flag>, formal: map<string, Flag>)
  {
    forall n :: n in d ==>
      && n !in taken && n in formal
      && formal[n].cell.init == Registered(d[n])
      && formal[n].defValue == DefValueText(Registered(d[n]))
      && formal[n].usage == d[n].description
  }

  /** The default a descriptor's flag is registered with (Nil when it registers none). */
  function Registered(c: Descriptor): Scalar {
    if FlagDefault(c).Ok? then FlagDefault(c).value else Nil
  }

  /** What a registered flag holds after flag.Parse: the command-line value if one was
      given, else its default. */
  function Pointee(c: Descriptor, args: map<string, Scalar>): Scalar {
    if c.flagName in args then args[c.flagName] else Registered(c)
  }

  /** Config names are keys of a map in the source, so they are distinct. */
  predicate DistinctNames(cfg: Schema) {
    forall i, j :: 0 <= i < j < |cfg| ==> cfg[i].0 != cfg[j].0
  }

  /** The flag package panics when a name is registered twice, so the flags the schema
      registers must be distinct and new. */
  predicate FlagNamesFree(cfg: Schema, taken: set<string>) {
    && (forall i, j :: 0 <= i < j < |cfg| && Registers(cfg[i].1) && Registers(cfg[j].1) ==>
          cfg[i].1.flagName != cfg[j].1.flagName)
    && (forall i :: 0 <= i < |cfg| && Registers(cfg[i].1) ==> cfg[i].1.flagName !in taken)
  }

  /** flag.Parse only ever stores a uint64 into a uint64 flag and a string into a string flag. */
  predicate ArgsWellTyped(cfg: Schema, args: map<string, Scalar>) {
    forall i :: 0 <= i < |cfg| && Registers(cfg[i].1) && cfg[i].1.flagName in args ==>
      if IsUintType(cfg[i].1.typ) then args[cfg[i].1.flagName].U? else args[cfg[i].1.flagName].Str?
  }

  // ---------------------------------------------------------------------------
  // The required check

  /** The flag storage a table may read through. */
  ghost function Cells(values: map<string, Value>): set<object?> {
    set n | n in values :: values[n].flag
  }

  /** The value the required check means to test: what resolve gives, or the fallback
      for an entry with neither a set variable nor a flag (where resolve, as written,
      dereferences a nil flag). The fallback is documented as what is used when both
      sources are empty (value.go:13). */
  function IntendedValue(v: Value): Scalar
    reads v.flag
  {
    if Resolvable(v) then Resolve(v) else v.fallback
  }

  /** A table entry that gives the name a non-empty value. */
  predicate Usable(name: string, values: map<string, Value>)
    reads Cells(values)
  {
    name in values && !IsZeroValue(IntendedValue(values[name]))
  }

  /** The check load runs for one descriptor, as intended: nothing for an optional
      descriptor; couldNotParse when binding dropped it; argMissing when its value is
      empty, where an entry with neither a set variable nor a flag has its fallback as
      its value. */
  function CheckEntry(name: string, arg: Descriptor, values: map<string, Value>): (r: Option<ArgError>)
    reads Cells(values)
    ensures r.None? <==> !arg.required || Usable(name, values)
    ensures r.Some? ==> r.value.argument == arg
    ensures r.Some? ==> (r.value.error == CouldNotParse <==> name !in values)
    ensures r.Some? ==> r.value.error == CouldNotParse || r.value.error == ArgMissing
  {
    if !arg.required then None
    else if name !in values then Some(ArgError(CouldNotParse, arg))
    else if IsZeroValue(IntendedValue(values[name])) then Some(ArgError(ArgMissing, arg))
    else None
  }

  /** What the check of loader.go:94-110 does as written: it calls resolve on the entry
      even when that entry has no flag and its variable is unset, and that call panics. */
  datatype CheckOutcome = Passed | Reported(e: ArgError) | Panicked

  function CheckEntryAsWritten(name: string, arg: Descriptor, values: map<string, Value>): (r: CheckOutcome)
    reads Cells(values)
    ensures r == Panicked <==> arg.required && name in values && !Resolvable(values[name])
    ensures r != Panicked ==> (r.Passed? <==> CheckEntry(name, arg, values).None?)
    ensures r.Reported? ==> CheckEntry(name, arg, values) == Some(r.e)
  {
    if !arg.required then Passed
    else if name !in values then Reported(ArgError(CouldNotParse, arg))
    else if !Resolvable(values[name]) then Panicked
    else if IsZeroValue(Resolve(values[name])) then Reported(ArgError(ArgMissing, arg))
    else Passed
  }

  function OptionToSeq<T>(o: Option<T>): seq<T> {
    if o.Some? then [o.value] else []
  }

  /** The errors of the required check, in schema order. */
  function RequiredErrors(cfg: Schema, values: map<string, Value>): seq<ArgError>
    reads Cells(values)
    decreases |cfg|
  {
    if cfg == [] then []
    else
      var (name, arg) := cfg[|cfg| - 1];
      RequiredErrors(cfg[..|cfg| - 1], values) + OptionToSeq(CheckEntry(name, arg, values))
  }

  // ---------------------------------------------------------------------------
  // Struct binding

  /** Errors of Load. `NotPtr` and `NotStruct` are the errors the source returns; the
      other three are panics in the source: resolve dereferencing a nil flag, a failed
      `.(uint64)` or `.(string)` type assertion, and SetUint or SetString on a field of
      another kind. */
  datatype LoadError =
    | NotPtr
    | NotStruct(kind: string)
    | NilFlag(config: string)
    | WrongVariant(config: string)
    | WrongKind(field: string)

  /** What Load reads from one table entry: its declared type, and its resolution, or
      None when resolving it would dereference a nil flag. */
  datatype Resolution = Resolution(typ: string, val: Option<Scalar>)

  /** The table as Load sees it. Nothing writes to flag storage while Load runs, so every
      field reads the same resolutions. */
  function Resolutions(values: map<string, Value>): map<string, Resolution>
    reads Cells(values)
  {
    map n | n in values :: Resolution(values[n].typ, if Resolvable(values[n]) then Some(Resolve(values[n])) else None)
  }

  /** One iteration of Load's field loop: an unexported field or one that no entry
      matches is left as it is; otherwise the field gets the resolution, as a uint64
      truncated to the field's width for a uint-family entry and as a string otherwise. */
  function BindField(f: Field, res: map<string, Resolution>): (r: Result<Field, LoadError>)
    ensures r.Ok? ==> SameShape(f, r.value)
    ensures !f.settable || ConfigName(f) !in res ==> r == Ok(f)
    ensures r.Ok? && f.settable && ConfigName(f) in res ==>
              var c := res[ConfigName(f)];
              && c.val.Some?
              && (IsUintType(c.typ) ==>
                    (c.val.value.U? && f.kind.UintKind? && r.value.val == U(c.val.value.n % Modulus(f.kind.width))))
              && (!IsUintType(c.typ) ==> (c.val.value.Str? && f.kind.StringKind? && r.value.val == c.val.value))
    ensures r.Err? ==> f.settable && ConfigName(f) in res
    ensures r == Err(NilFlag(ConfigName(f))) <==> f.settable && ConfigName(f) in res && res[ConfigName(f)].val.None?
    ensures f.settable && ConfigName(f) in res && res[ConfigName(f)].val.Some? ==>
              var c := res[ConfigName(f)];
              var wellTyped := if IsUintType(c.typ) then c.val.value.U? else c.val.value.Str?;
              var kindFits := if IsUintType(c.typ) then f.kind.UintKind? else f.kind.StringKind?;
              && (r.Ok? <==> wellTyped && kindFits)
              && (r == Err(WrongVariant(ConfigName(f))) <==> !wellTyped)
              && (r == Err(WrongKind(f.name)) <==> wellTyped && !kindFits)
  {
    if !f.settable then Ok(f)
    else
      var name := ConfigName(f);
      if name !in res then Ok(f)
      else
        var c := res[name];
        if c.val.None? then Err(NilFlag(name))
        else
          var nv := c.val.value;
          if IsUintType(c.typ) then
            if !nv.U? then Err(WrongVariant(name))
            else if !f.kind.UintKind? then Err(WrongKind(f.name))
            else Ok(f.(val := U(nv.n % Modulus(f.kind.width))))
          else
            if !nv.Str? then Err(WrongVariant(name))
            else if !f.kind.StringKind? then Err(WrongKind(f.name))
            else Ok(f.(val := nv))
  }

  /** Load's field loop over a whole struct: the fields as they are afterwards, and the
      error (a panic in the source) that stopped the loop, if any. Fields before the
      failing one stay set; it and those after it are untouched. */
  function BindAll(fs: seq<Field>, res: map<string, Resolution>): (r: (seq<Field>, Option<LoadError>))
    ensures |r.0| == |fs|
    decreases |fs|
  {
    if fs == [] then ([], None)
    else
      var (done, e) := BindAll(fs[..|fs| - 1], res);
      var f := fs[|fs| - 1];
      if e.Some? then (done + [f], e)
      else
        match BindField(f, res)
        case Ok(g) => (done + [g], None)
        case Err(x) => (done + [f], Some(x))
  }

  /** BindAll of a one-longer prefix. */
  lemma BindAllSnoc(fs: seq<Field>, i: nat, res: map<string, Resolution>)
    requires i < |fs|
    ensures BindAll(fs[..i + 1], res) ==
              var (done, e) := BindAll(fs[..i], res);
              if e.Some? then (done + [fs[i]], e)
              else match BindField(fs[i], res)
                   case Ok(g) => (done + [g], None)
                   case Err(x) => (done + [fs[i]], Some(x))
  {
    assert fs[..i + 1][..i] == fs[..i];
  }

  /** A field that fails to bind stops the loop: it and every later field stay as
      they were. */
  lemma BindAllStops(fs: seq<Field>, i: nat, res: map<string, Resolution>)
    requires i < |fs| && BindAll(fs[..i], res).1.None? && BindField(fs[i], res).Err?
    ensures BindAll(fs, res) == (BindAll(fs[..i], res).0 + fs[i..], Some(BindField(fs[i], res).error))
  {
    BindAllSnoc(fs, i, res);
    BindAllAfterError(fs[..i + 1], fs[i + 1..], res);
    assert fs[..i + 1] + fs[i + 1..] == fs;
    assert BindAll(fs[..i], res).0 + [fs[i]] + fs[i + 1..] == BindAll(fs[..i], res).0 + fs[i..];
  }

  lemma {:induction false} BindAllAfterError(fs: seq<Field>, rest: seq<Field>, res: map<string, Resolution>)
    requires BindAll(fs, res).1.Some?
    ensures BindAll(fs + rest, res) == (BindAll(fs, res).0 + rest, BindAll(fs, res).1)
    decreases |rest|
  {
    if rest == [] {
      assert fs + rest == fs;
      assert BindAll(fs, res).0 + rest == BindAll(fs, res).0;
    } else {
      var r' := rest[..|rest| - 1];
      var all := fs + rest;
      BindAllAfterError(fs, r', res);
      assert all[..|all| - 1] == fs + r';
      assert all[|all| - 1] == rest[|rest| - 1];
      assert BindAll(all, res) == (BindAll(fs + r', res).0 + [rest[|rest| - 1]], BindAll(fs + r', res).1);
      assert (BindAll(fs, res).0 + r') + [rest[|rest| - 1]] == BindAll(fs, res).0 + rest;
    }
  }

  // ---------------------------------------------------------------------------
  // The package state

  /** The table and the flags after load's first loop has handled the descriptors of
      `cfg`, starting from the flags `pf` and the table `pv`: the table gained the
      admitted entries, the flags gained the declared ones and kept the others. */
  ghost predicate Bound(cfg: Schema, env: map<string, string>, pf: map<string, Flag>,
                        pv: map<string, Value>, values: map<string, Value>, formal: map<string, Flag>)
  {
    && values == pv + Loaded(cfg, env, formal)
    && (forall n :: n in formal <==> n in pf || n in Declared(cfg))
    && (forall n :: n in pf ==> n in formal && formal[n] == pf[n])
    && FlagsDeclared(Declared(cfg), pf, formal)
  }

  /** What BindOne does to descriptor i carries Bound from i to i + 1. */
  lemma BoundStep(config: Schema, i: nat, env: map<string, string>, pf: map<string, Flag>, pv: map<string, Value>,
                  v0: map<string, Value>, f0: map<string, Flag>, v1: map<string, Value>, f1: map<string, Flag>)
    requires i < |config|
    requires Registers(config[i].1) ==> config[i].1.flagName !in Declared(config[..i]) && config[i].1.flagName !in pf
    requires Bound(config[..i], env, pf, pv, v0, f0)
    requires var c := config[i].1;
             && (!Registers(c) ==> f1 == f0)
             && (Registers(c) ==>
                   && c.flagName in f1
                   && f1 == f0[c.flagName := f1[c.flagName]]
                   && f1[c.flagName].cell.init == Registered(c)
                   && f1[c.flagName].defValue == DefValueText(Registered(c))
                   && f1[c.flagName].usage == c.description)
             && v1 == if Admitted(c, env) then v0[config[i].0 := Entry(c, env, CellFor(c, f1))] else v0
    ensures Bound(config[..i + 1], env, pf, pv, v1, f1)
  {
    var (name, c) := config[i];
    DeclaredStep(config, i);
    FlagsDeclaredStep(Declared(config[..i]), c, pf, f0, f1);
    BindStep(config, i, env, f0, f1);
    if Admitted(c, env) {
      UnionUpdate(pv, Loaded(config[..i], env, f0), name, Entry(c, env, CellFor(c, f1)));
    }
  }

  class Registry {
    /** The resolution table, by config name. */
    var values: map<string, Value>
    /** The process-wide flag set. */
    const flags: FlagSet

    /** Every flag the table points to is registered under its own name. */
    ghost predicate Valid()
      reads this, flags
    {
      && flags.Valid()
      && forall n :: n in values && values[n].flag != null ==>
           values[n].flag.name in flags.formal && flags.formal[values[n].flag.name].cell == values[n].flag
    }

    constructor ()
      ensures Valid() && fresh(flags)
      ensures values == map[] && flags.formal == map[] && flags.Repr == {}
    {
      values := map[];
      flags := new FlagSet();
    }

    /** The body of load's first loop, for one descriptor: register its flag, read its
        environment variable, and put the entry into the table unless either failed. A
        flag registered before the variable failed stays registered. */
    method BindOne(name: string, c: Descriptor, env: map<string, string>)
      requires Valid()
      requires Registers(c) ==> c.flagName !in flags.formal
      modifies this, flags
      ensures Valid()
      ensures !Registers(c) ==> flags.formal == old(flags.formal)
      ensures Registers(c) ==>
                && c.flagName in flags.formal
                && fresh(flags.formal[c.flagName].cell)
                && flags.formal[c.flagName].cell.val == Registered(c)
                && flags.formal[c.flagName].cell.init == Registered(c)
                && flags.formal == old(flags.formal)[c.flagName := flags.formal[c.flagName]]
                && flags.formal[c.flagName].defValue == DefValueText(Registered(c))
                && flags.formal[c.flagName].usage == c.description
      ensures forall o :: o in flags.Repr ==> o in old(flags.Repr) || fresh(o)
      ensures values == if Admitted(c, env) then old(values)[name := Entry(c, env, CellFor(c, flags.formal))]
                        else old(values)
    {
      var v := Value(false, null, Nil, c.default, c.typ);
      if c.flagName != "" {
        var r := LoadFlag(c, flags);
        if r.Err? {
          return;
        }
        assert flags.formal[c.flagName].cell == r.value;
        forall n | n in values && values[n].flag != null
          ensures values[n].flag.name in flags.formal && flags.formal[values[n].flag.name].cell == values[n].flag
        {
          assert values[n].flag.name in old(flags.formal);
        }
        v := v.(flag := r.value);
      }
      if c.envName != "" {
        var e := LoadEnv(c, env);
        v := v.(env := if e.Ok? then e.value else Nil, useEnv := e != Err(NoEnvVar));
        if v.useEnv && e.Err? {
          return;
        }
      }
      values := values[name := v];
    }

    /** One iteration of load's first loop: the i-th descriptor. */
    method BindNext(config: Schema, i: nat, env: map<string, string>,
                    ghost pf: map<string, Flag>, ghost pv: map<string, Value>)
      requires i < |config|
      requires Registers(config[i].1) ==> config[i].1.flagName !in Declared(config[..i]) && config[i].1.flagName !in pf
      requires Valid() && Bound(config[..i], env, pf, pv, values, flags.formal)
      requires forall n :: n in flags.formal && n !in pf ==> flags.formal[n].cell.val == flags.formal[n].cell.init
      modifies this, flags
      ensures Valid() && Bound(config[..i + 1], env, pf, pv, values, flags.formal)
      ensures forall n :: n in flags.formal && n !in pf ==> flags.formal[n].cell.val == flags.formal[n].cell.init
      ensures forall n :: n in old(flags.formal) ==> n in flags.formal && flags.formal[n] == old(flags.formal[n])
      ensures forall n :: n in flags.formal && n !in old(flags.formal) ==> fresh(flags.formal[n].cell)
      ensures forall o :: o in flags.Repr ==> o in old(flags.Repr) || fresh(o)
    {
      var (name, c) := config[i];
      ghost var v0, f0 := values, flags.formal;
      BindOne(name, c, env);
      BoundStep(config, i, env, pf, pv, v0, f0, values, flags.formal);
      forall n | n in flags.formal && n !in pf
        ensures flags.formal[n].cell.val == flags.formal[n].cell.init
      {
        if !(Registers(c) && n == c.flagName) {
          assert flags.formal[n] == f0[n];
          assert f0[n].cell.val == old(f0[n].cell.val);
        }
      }
    }

    /** The first loop of load: every descriptor in turn. A descriptor whose flag default
        is invalid, or whose variable is set but does not parse, is left out of the
        table; the others still go in. Flags registered before stay as they were; each
        new one is fresh and holds its default. */
    method BindSources(config: Schema, env: map<string, string>)
      requires Valid()
      requires FlagNamesFree(config, flags.formal.Keys)
      modifies this, flags
      ensures Valid() && Bound(config, env, old(flags.formal), old(values), values, flags.formal)
      ensures forall n :: n in flags.formal && n !in old(flags.formal) ==>
                fresh(flags.formal[n].cell) && flags.formal[n].cell.val == flags.formal[n].cell.init
      ensures forall o :: o in flags.Repr ==> o in old(flags.Repr) || fresh(o)
    {
      ghost var pf, pv := flags.formal, values;
      assert config[..0] == [];
      for i := 0 to |config|
        invariant Valid() && Bound(config[..i], env, pf, pv, values, flags.formal)
        invariant forall n :: n in flags.formal && n !in pf ==> flags.formal[n].cell.val == flags.formal[n].cell.init
        invariant forall n :: n in flags.formal && n !in pf ==> fresh(flags.formal[n].cell)
        invariant forall o :: o in flags.Repr ==> o in old(flags.Repr) || fresh(o)
      {
        DeclaredFree(config, pf.Keys, i);
        BindNext(config, i, env, pf, pv);
      }
      assert config[..|config|] == config;
    }

    /** The second loop of load: one error at most per required descriptor. */
    method CheckRequired(config: Schema) returns (errs: seq<ArgError>)
      ensures errs == RequiredErrors(config, values)
    {
      errs := [];
      for i := 0 to |config|
        invariant errs == RequiredErrors(config[..i], values)
      {
        assert config[..i + 1][..i] == config[..i];
        var (name, arg) := config[i];
        if !arg.required {
          continue;
        }
        if name !in values {
          errs := errs + [ArgError(CouldNotParse, arg)];
          continue;
        }
        var val := values[name];
        var resolved := if Resolvable(val) then Resolve(val) else val.fallback;
        if IsZeroValue(resolved) {
          errs := errs + [ArgError(ArgMissing, arg)];
          continue;
        }
      }
      assert config[..|config|] == config;
    }

    /** load: bind the sources, parse the command line (its parsed values are `args`),
        then check the required descriptors. */
    method LoadConfig(config: Schema, env: map<string, string>, args: map<string, Scalar>)
      returns (errs: seq<ArgError>)
      requires Valid()
      requires FlagNamesFree(config, flags.formal.Keys)
      modifies this, flags, flags.Repr
      ensures Valid() && Bound(config, env, old(flags.formal), old(values), values, flags.formal)
      ensures forall n :: n in old(flags.formal) ==>
                flags.formal[n].cell.val == if n in args then args[n] else old(flags.formal[n].cell.val)
      ensures forall n :: n in Declared(config) ==>
                fresh(flags.formal[n].cell) && flags.formal[n].cell.val == Pointee(Declared(config)[n], args)
      ensures multiset(errs) == multiset(RequiredErrors(config, values))
    {
      BindSources(config, env);
      ghost var f1 := flags.formal;
      flags.Parse(args);
      assert flags.formal == f1;
      DeclaredNames(config);
      errs := CheckRequired(config);
    }

    /** Load: copies the resolved values into the struct a pointer points to. A target
        that is not a pointer to a struct is an error and nothing changes. */
    method Load(target: Target) returns (err: Option<LoadError>)
      modifies if target.StructPointer? then {target.fields} else {}
      ensures target.NotPointer? ==> err == Some(NotPtr)
      ensures target.PointerTo? ==> err == Some(NotStruct(target.kind))
      ensures target.StructPointer? ==>
                (target.fields[..], err) == BindAll(old(target.fields[..]), old(Resolutions(values)))
    {
      match target
      case NotPointer(_) =>
        return Some(NotPtr);
      case PointerTo(k) =>
        return Some(NotStruct(k));
      case StructPointer(a) =>
        err := BindFields(a, Resolutions(values));
    }
  }

  /** Load's loop over the struct's fields, in order, stopping at the first field that
      cannot be set. */
  method BindFields(a: array<Field>, res: map<string, Resolution>) returns (err: Option<LoadError>)
    modifies a
    ensures (a[..], err) == BindAll(old(a[..]), res)
  {
    ghost var orig := a[..];
    for i := 0 to a.Length
      invariant BindAll(orig[..i], res) == (a[..i], None)
      invariant a[i..] == orig[i..]
    {
      assert a[i] == orig[i];
      var r := BindField(a[i], res);
      if r.Err? {
        BindAllStops(orig, i, res);
        assert a[..] == a[..i] + a[i..];
        return Some(r.error);
      }
      BindAllSnoc(orig, i, res);
      ghost var done := a[..i];
      a[i] := r.value;
      assert a[..i + 1] == done + [r.value];
      assert a[i + 1..] == orig[i + 1..];
    }
    assert a[..] == a[..a.Length];
    assert orig[..a.Length] == orig;
    return None;
  }

  // ---------------------------------------------------------------------------
  // Facts the loop proofs rely on

  /** Every declared flag is registered under its own name. */
  lemma {:induction false} DeclaredNames(cfg: Schema)
    ensures forall n :: n in Declared(cfg) ==> Registers(Declared(cfg)[n]) && Declared(cfg)[n].flagName == n
    decreases |cfg|
  {
    if cfg != [] {
      DeclaredNames(cfg[..|cfg| - 1]);
    }
  }

  /** A name is declared exactly when some descriptor of the schema registers it. */
  lemma {:induction false} DeclaredMember(cfg: Schema, n: string)
    ensures n in Declared(cfg) <==>
              exists k :: 0 <= k < |cfg| && Registers(cfg[k].1) && cfg[k].1.flagName == n
    decreases |cfg|
  {
    if cfg != [] {
      var last := |cfg| - 1;
      var init := cfg[..last];
      DeclaredMember(init, n);
      if n in Declared(init) {
        var k :| 0 <= k < |init| && Registers(init[k].1) && init[k].1.flagName == n;
        assert cfg[k] == init[k];
      } else if !(Registers(cfg[last].1) && cfg[last].1.flagName == n) {
        forall k | 0 <= k < |cfg| && Registers(cfg[k].1) ensures cfg[k].1.flagName != n {
          if k < last {
            assert init[k] == cfg[k];
          }
        }
      }
    }
  }

  /** The flag of entry i is not yet registered when the loop reaches it. */
  lemma DeclaredFree(cfg: Schema, taken: set<string>, i: nat)
    requires i < |cfg|
    requires FlagNamesFree(cfg, taken)
    ensures Registers(cfg[i].1) ==> cfg[i].1.flagName !in Declared(cfg[..i]) && cfg[i].1.flagName !in taken
  {
    DeclaredMember(cfg[..i], cfg[i].1.flagName);
  }

  /** Registering one more descriptor's flag, as loadFlag does, keeps the registry in
      step with the declared flags. */
  lemma FlagsDeclaredStep(d0: map<string, Descriptor>, c: Descriptor, taken: map<string, Flag>,
                          f0: map<string, Flag>, f1: map<string, Flag>)
    requires FlagsDeclared(d0, taken, f0)
    requires Registers(c) ==> c.flagName !in taken
    requires !Registers(c) ==> f1 == f0
    requires Registers(c) ==>
               && c.flagName in f1
               && f1 == f0[c.flagName := f1[c.flagName]]
               && f1[c.flagName].cell.init == Registered(c)
               && f1[c.flagName].defValue == DefValueText(Registered(c))
               && f1[c.flagName].usage == c.description
    ensures FlagsDeclared(if Registers(c) then d0[c.flagName := c] else d0, taken, f1)
  {
  }

  /** The declared flags of a one-longer prefix. */
  lemma DeclaredStep(cfg: Schema, i: nat)
    requires i < |cfg|
    ensures Declared(cfg[..i + 1]) ==
              if Registers(cfg[i].1) then Declared(cfg[..i])[cfg[i].1.flagName := cfg[i].1]
              else Declared(cfg[..i])
  {
    assert cfg[..i + 1][..i] == cfg[..i];
  }

  /** One step of the first loop, on the specification side: the table of a one-longer
      prefix. */
  lemma BindStep(cfg: Schema, i: nat, env: map<string, string>,
                 c0: map<string, Flag>, c1: map<string, Flag>)
    requires i < |cfg|
    requires Declared(cfg[..i]).Keys <= c0.Keys
    requires if Registers(cfg[i].1) then cfg[i].1.flagName !in c0 && cfg[i].1.flagName in c1 &&
                                         c1 == c0[cfg[i].1.flagName := c1[cfg[i].1.flagName]]
             else c1 == c0
    ensures Loaded(cfg[..i + 1], env, c1) ==
              if Admitted(cfg[i].1, env)
              then Loaded(cfg[..i], env, c0)[cfg[i].0 := Entry(cfg[i].1, env, CellFor(cfg[i].1, c1))]
              else Loaded(cfg[..i], env, c0)
  {
    assert cfg[..i + 1][..i] == cfg[..i];
    forall k | 0 <= k < i && Registers(cfg[..i][k].1) ensures cfg[..i][k].1.flagName in c0 {
      DeclaredMember(cfg[..i], cfg[..i][k].1.flagName);
    }
    LoadedStable(cfg[..i], env, c0, c1);
  }

  lemma UnionUpdate<K, V>(m: map<K, V>, l: map<K, V>, k: K, v: V)
    ensures (m + l)[k := v] == m + l[k := v]
  {
  }

  /** The table binding builds reads the flag registry only at the names the schema
      registers. */
  lemma {:induction false} LoadedStable(cfg: Schema, env: map<string, string>,
                                        c1: map<string, Flag>, c2: map<string, Flag>)
    requires forall n :: n in c1 ==> n in c2 && c2[n] == c1[n]
    requires forall k :: 0 <= k < |cfg| && Registers(cfg[k].1) ==> cfg[k].1.flagName in c1
    ensures Loaded(cfg, env, c1) == Loaded(cfg, env, c2)
    decreases |cfg|
  {
    if cfg != [] {
      var init := cfg[..|cfg| - 1];
      forall k | 0 <= k < |init| && Registers(init[k].1) ensures init[k].1.flagName in c1 {
        assert init[k] == cfg[k];
      }
      LoadedStable(init, env, c1, c2);
      var c := cfg[|cfg| - 1].1;
      if Admitted(c, env) && c.flagName != "" {
        assert Registers(cfg[|cfg| - 1].1);
      }
    }
  }
}
