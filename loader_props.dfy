/**
  What the loader promises, stated over the specification functions of module
  Loading: which entries binding puts into the table and what they resolve to,
  which errors the required check reports, and what struct binding does to each
  field.
 */
module LoadingProperties {
  import opened Scalars
  import opened Decimal
  import opened Flags
  import opened Values
  import opened Arguments
  import opened ArgErrors
  import opened Targets
  import opened Loading

  // ---------------------------------------------------------------------------
  // The table binding builds

  /** Binding gives every admitted descriptor an entry under its config name, built from
      its own sources, and drops every other descriptor. */
  lemma {:induction false} LoadedEntries(cfg: Schema, env: map<string, string>, formal: map<string, Flag>)
    requires DistinctNames(cfg)
    ensures forall k :: 0 <= k < |cfg| ==> (cfg[k].0 in Loaded(cfg, env, formal) <==> Admitted(cfg[k].1, env))
    ensures forall k :: 0 <= k < |cfg| && Admitted(cfg[k].1, env) ==>
              Loaded(cfg, env, formal)[cfg[k].0] == Entry(cfg[k].1, env, CellFor(cfg[k].1, formal))
    decreases |cfg|
  {
    if cfg != [] {
      var last := |cfg| - 1;
      var init := cfg[..last];
      assert DistinctNames(init) by {
        forall i, j | 0 <= i < j < |init| ensures init[i].0 != init[j].0 {
          assert init[i] == cfg[i] && init[j] == cfg[j];
        }
      }
      LoadedEntries(init, env, formal);
      assert forall k :: 0 <= k < |init| ==> init[k].0 == cfg[k].0 != cfg[last].0;
      LoadedAbsent(init, env, formal, cfg[last].0);
      var m := Loaded(cfg, env, formal);
      forall k | 0 <= k < |cfg|
        ensures cfg[k].0 in m <==> Admitted(cfg[k].1, env)
        ensures Admitted(cfg[k].1, env) ==> m[cfg[k].0] == Entry(cfg[k].1, env, CellFor(cfg[k].1, formal))
      {
        if k < last {
          assert init[k] == cfg[k];
          assert cfg[k].0 != cfg[last].0;
        }
      }
    }
  }

  /** A name that no descriptor has gets no entry. */
  lemma {:induction false} LoadedAbsent(cfg: Schema, env: map<string, string>, formal: map<string, Flag>, n: string)
    requires forall k :: 0 <= k < |cfg| ==> cfg[k].0 != n
    ensures n !in Loaded(cfg, env, formal)
    decreases |cfg|
  {
    if cfg != [] {
      var init := cfg[..|cfg| - 1];
      assert forall k :: 0 <= k < |init| ==> init[k] == cfg[k];
      LoadedAbsent(init, env, formal, n);
    }
  }

  /** Binding adds no names other than the schema's. */
  lemma {:induction false} LoadedNames(cfg: Schema, env: map<string, string>, formal: map<string, Flag>)
    ensures forall n :: n in Loaded(cfg, env, formal) ==> exists k :: 0 <= k < |cfg| && cfg[k].0 == n
    decreases |cfg|
  {
    if cfg != [] {
      var last := |cfg| - 1;
      var init := cfg[..last];
      LoadedNames(init, env, formal);
      forall n | n in Loaded(cfg, env, formal)
        ensures exists k :: 0 <= k < |cfg| && cfg[k].0 == n
      {
        if n in Loaded(init, env, formal) {
          var k :| 0 <= k < |init| && init[k].0 == n;
          assert cfg[k] == init[k];
        } else {
          assert cfg[last].0 == n;
        }
      }
    }
  }

  /** An entry whose variable was set and parsed resolves to the variable's value,
      whatever its flag and its fallback hold. */
  lemma EnvWinsOverFlag(c: Descriptor, env: map<string, string>, cell: FlagCell?)
    requires UseEnv(c, env) && LoadEnv(c, env).Ok?
    ensures Resolvable(Entry(c, env, cell))
    ensures Resolve(Entry(c, env, cell)) == LoadEnv(c, env).value
  {
  }

  /** Without a set variable, an entry with a flag resolves to the flag's value, or to
      the descriptor's default when the flag holds "" or nil. */
  lemma FlagWithoutEnv(c: Descriptor, env: map<string, string>, cell: FlagCell)
    requires c.envName == "" || Getenv(env, c.envName) == ""
    ensures Resolvable(Entry(c, env, cell))
    ensures Resolve(Entry(c, env, cell)) == if IsZeroValue(cell.val) then c.default else cell.val
  {
  }

  /** An admitted uint-family entry resolves to a uint64 whichever source wins, as long
      as its flag holds one; so it never falls back to its JSON default. */
  lemma UintEntryResolvesToUint(c: Descriptor, env: map<string, string>, cell: FlagCell?)
    requires IsUintType(c.typ) && Admitted(c, env)
    requires Resolvable(Entry(c, env, cell))
    requires !UseEnv(c, env) ==> cell.val.U?
    ensures Resolve(Entry(c, env, cell)).U?
  {
  }

  // ---------------------------------------------------------------------------
  // Environment values and flag defaults

  /** The decimal text of a uint64 in the variable of a uint-family descriptor loads as
      that number. */
  lemma LoadEnvUintRoundTrip(a: Argument, env: map<string, string>, n: uint64)
    requires IsUintType(a.typ) && Getenv(env, a.envName) == FormatUint(n)
    ensures LoadEnv(a, env) == Ok(U(n))
  {
    FormatUintDenotes(n);
    ParseFormatRoundTrip(n);
  }

  /** Concrete cases: "123" loads as the number 123 for every uint-family type; for a
      string type the text is kept; a sign or an unset variable is an error. */
  lemma LoadEnvExamples(t: string)
    requires IsUintType(t)
    ensures LoadEnv(Argument("", Nil, "X", "", t, false), map["X" := "123"]) == Ok(U(123))
    ensures LoadEnv(Argument("", Nil, "X", "", "string", false), map["X" := "somestring"]) == Ok(Str("somestring"))
    ensures LoadEnv(Argument("", Nil, "X", "", t, false), map["X" := "-1"]) == Err(BadNumber)
    ensures LoadEnv(Argument("", Nil, "X", "", t, false), map[]) == Err(NoEnvVar)
  {
    ParseExamples();
  }

  /** The default text a uint flag is registered with reads back as its default. */
  lemma DefValueRoundTrip(a: Descriptor)
    requires IsUintType(a.typ) && a.default.Num?
    ensures ParseUint(DefValueText(Registered(a))) == Some(a.default.x)
  {
    ParseFormatRoundTrip(a.default.x);
  }

  /** Concrete cases: a uint flag with default 123 records "123"; a string flag records
      its default text. */
  lemma DefValueExamples()
    ensures DefValueText(Registered(Argument("d", Num(123), "", "f", "uint", false))) == "123"
    ensures DefValueText(Registered(Argument("d", Str("somestring"), "", "f", "string", false))) == "somestring"
    ensures DefValueText(Registered(Argument("d", Nil, "", "f", "string", false))) == ""
  {
    assert FormatUint(123) == FormatUint(12) + [DigitChar(3)];
    assert FormatUint(12) == FormatUint(1) + [DigitChar(2)];
  }

  /** When the command line gives each flag a value of its own type, a registered uint
      flag holds a uint64 after parsing and a string flag holds a string, so the type
      assertions of Load do not fail on a flag's value. */
  lemma PointeeWellTyped(cfg: Schema, args: map<string, Scalar>, k: nat)
    requires ArgsWellTyped(cfg, args)
    requires k < |cfg| && Registers(cfg[k].1)
    ensures IsUintType(cfg[k].1.typ) ==> Pointee(cfg[k].1, args).U?
    ensures !IsUintType(cfg[k].1.typ) ==> Pointee(cfg[k].1, args).Str?
  {
  }

  // ---------------------------------------------------------------------------
  // The required check

  /** The errors are exactly the per-descriptor errors of CheckEntry. */
  lemma {:induction false} RequiredErrorsMembers(cfg: Schema, values: map<string, Value>)
    ensures forall e :: e in RequiredErrors(cfg, values) <==>
              exists k :: 0 <= k < |cfg| && CheckEntry(cfg[k].0, cfg[k].1, values) == Some(e)
    decreases |cfg|
  {
    if cfg != [] {
      var last := |cfg| - 1;
      var init := cfg[..last];
      RequiredErrorsMembers(init, values);
      var tail := OptionToSeq(CheckEntry(cfg[last].0, cfg[last].1, values));
      assert RequiredErrors(cfg, values) == RequiredErrors(init, values) + tail;
      forall e | e in RequiredErrors(cfg, values)
        ensures exists k :: 0 <= k < |cfg| && CheckEntry(cfg[k].0, cfg[k].1, values) == Some(e)
      {
        if e in RequiredErrors(init, values) {
          var k :| 0 <= k < |init| && CheckEntry(init[k].0, init[k].1, values) == Some(e);
          assert cfg[k] == init[k];
        } else {
          assert e in tail;
        }
      }
      forall e | exists k :: 0 <= k < |cfg| && CheckEntry(cfg[k].0, cfg[k].1, values) == Some(e)
        ensures e in RequiredErrors(cfg, values)
      {
        var k :| 0 <= k < |cfg| && CheckEntry(cfg[k].0, cfg[k].1, values) == Some(e);
        if k < last {
          assert init[k] == cfg[k];
        }
      }
    }
  }

  /** The positions of the descriptors whose check reports an error. */
  ghost function Failing(cfg: Schema, values: map<string, Value>): set<int>
    reads Cells(values)
  {
    set k | 0 <= k < |cfg| && CheckEntry(cfg[k].0, cfg[k].1, values).Some?
  }

  /** Exactly one error per failing descriptor: as many errors as failing descriptors,
      so none is reported twice, and none of them more than the schema holds. */
  lemma {:induction false} RequiredErrorsAtMostOneEach(cfg: Schema, values: map<string, Value>)
    ensures |RequiredErrors(cfg, values)| == |Failing(cfg, values)|
    ensures |RequiredErrors(cfg, values)| <= |cfg|
    decreases |cfg|
  {
    if cfg != [] {
      var last := |cfg| - 1;
      var init := cfg[..last];
      RequiredErrorsAtMostOneEach(init, values);
      FailingStep(cfg, values);
      SubRangeSize(Failing(init, values), last);
    }
  }

  /** The failing positions of a schema are those of all but its last descriptor, and
      the last one's if its check fails. */
  lemma FailingStep(cfg: Schema, values: map<string, Value>)
    requires cfg != []
    ensures var last := |cfg| - 1;
            Failing(cfg, values) ==
              Failing(cfg[..last], values) + (if CheckEntry(cfg[last].0, cfg[last].1, values).Some? then {last} else {})
    ensures |cfg| - 1 !in Failing(cfg[..|cfg| - 1], values)
  {
    var last := |cfg| - 1;
    assert forall k :: 0 <= k < last ==> cfg[..last][k] == cfg[k];
  }

  /** A set of indices below n has at most n elements. */
  lemma {:induction false} SubRangeSize(s: set<int>, n: nat)
    requires forall k :: k in s ==> 0 <= k < n
    ensures |s| <= n
    decreases n
  {
    if n == 0 {
      assert forall k :: k !in s;
      assert s == {};
    } else {
      var rest := s - {n - 1};
      SubRangeSize(rest, n - 1);
      if n - 1 in s {
        assert s == rest + {n - 1};
      } else {
        assert s == rest;
      }
    }
  }

  /** The check reports nothing exactly when every descriptor passes. */
  lemma RequiredErrorsNone(cfg: Schema, values: map<string, Value>)
    ensures RequiredErrors(cfg, values) == [] <==>
              forall k :: 0 <= k < |cfg| ==> CheckEntry(cfg[k].0, cfg[k].1, values).None?
  {
    RequiredErrorsMembers(cfg, values);
    if RequiredErrors(cfg, values) != [] {
      assert RequiredErrors(cfg, values)[0] in RequiredErrors(cfg, values);
    }
  }

  /** Only required descriptors can be reported, and a reported descriptor either was
      dropped by binding or has an empty value. */
  lemma ReportedAreRequired(cfg: Schema, values: map<string, Value>, e: ArgError)
    requires e in RequiredErrors(cfg, values)
    ensures e.argument.required
    ensures e.error == CouldNotParse || e.error == ArgMissing
  {
    RequiredErrorsMembers(cfg, values);
  }

  // ---------------------------------------------------------------------------
  // Struct binding

  /** Binding succeeds exactly when every field binds, and then every field is bound. */
  lemma {:induction false} BindAllSucceeds(fs: seq<Field>, res: map<string, Resolution>)
    ensures BindAll(fs, res).1.None? <==> forall i :: 0 <= i < |fs| ==> BindField(fs[i], res).Ok?
    ensures BindAll(fs, res).1.None? ==>
              forall i :: 0 <= i < |fs| ==> BindAll(fs, res).0[i] == BindField(fs[i], res).value
    decreases |fs|
  {
    if fs != [] {
      var last := |fs| - 1;
      var init := fs[..last];
      BindAllSucceeds(init, res);
      assert forall i :: 0 <= i < last ==> init[i] == fs[i];
      if BindAll(init, res).1.None? && BindField(fs[last], res).Ok? {
        var out := BindAll(fs, res).0;
        assert out == BindAll(init, res).0 + [BindField(fs[last], res).value];
        forall i | 0 <= i < |fs| ensures out[i] == BindField(fs[i], res).value {
          if i < last {
            assert out[i] == BindAll(init, res).0[i];
          }
        }
      }
    }
  }

  /** The first field of `fs` that does not bind is at `i`. */
  predicate FirstFailure(fs: seq<Field>, res: map<string, Resolution>, i: nat) {
    i < |fs| && BindField(fs[i], res).Err? && forall j :: 0 <= j < i ==> BindField(fs[j], res).Ok?
  }

  /** On failure, the error is that of the first field that does not bind: the fields
      before it are bound as BindAll binds them, it and the fields after it are
      untouched. */
  lemma {:induction false} BindAllFails(fs: seq<Field>, res: map<string, Resolution>)
    requires BindAll(fs, res).1.Some?
    ensures exists i: nat :: FirstFailure(fs, res, i) && BindAll(fs[..i], res).1.None? &&
              BindAll(fs, res) == (BindAll(fs[..i], res).0 + fs[i..], Some(BindField(fs[i], res).error))
    decreases |fs|
  {
    var last := |fs| - 1;
    var init := fs[..last];
    assert forall j :: 0 <= j < last ==> init[j] == fs[j];
    if BindAll(init, res).1.Some? {
      BindAllFails(init, res);
      var i: nat :| FirstFailure(init, res, i) && BindAll(init[..i], res).1.None? &&
                    BindAll(init, res) == (BindAll(init[..i], res).0 + init[i..], Some(BindField(init[i], res).error));
      assert init[..i] == fs[..i];
      SnocSlice(fs, i, BindAll(init[..i], res).0);
      assert FirstFailure(fs, res, i);
    } else {
      BindAllSucceeds(init, res);
      BindAllStops(fs, last, res);
      assert FirstFailure(fs, res, last);
    }
  }

  /** Each field ends either as it was or as BindField sets it. */
  lemma {:induction false} BindAllEach(fs: seq<Field>, res: map<string, Resolution>)
    ensures forall i :: 0 <= i < |fs| ==>
              BindAll(fs, res).0[i] == fs[i] || BindField(fs[i], res) == Ok(BindAll(fs, res).0[i])
    decreases |fs|
  {
    if fs != [] {
      var last := |fs| - 1;
      var init := fs[..last];
      BindAllEach(init, res);
      var done := BindAll(init, res).0;
      var out := BindAll(fs, res).0;
      assert out[..last] == done;
      forall i | 0 <= i < last
        ensures out[i] == fs[i] || BindField(fs[i], res) == Ok(out[i])
      {
        assert out[i] == done[i] && init[i] == fs[i];
      }
    }
  }

  /** Binding keeps every field's shape, and each field ends either as it was or as
      BindField sets it; unexported and unmatched fields always end as they were. */
  lemma BindAllFields(fs: seq<Field>, res: map<string, Resolution>)
    ensures forall i :: 0 <= i < |fs| ==> SameShape(fs[i], BindAll(fs, res).0[i])
    ensures forall i :: 0 <= i < |fs| ==>
              BindAll(fs, res).0[i] == fs[i] || BindField(fs[i], res) == Ok(BindAll(fs, res).0[i])
    ensures forall i :: 0 <= i < |fs| && (!fs[i].settable || ConfigName(fs[i]) !in res) ==>
              BindAll(fs, res).0[i] == fs[i]
  {
    BindAllEach(fs, res);
  }

  /** A matched field receives what its entry resolves to: a string entry's resolution
      as it is, a uint-family entry's truncated to the field's width, provided the value
      and the field have the entry type's variant; an entry that cannot be resolved
      (no flag, variable unset) is a nil-flag error. */
  lemma MatchedFieldGetsResolve(f: Field, values: map<string, Value>)
    requires f.settable && ConfigName(f) in values
    ensures var v := values[ConfigName(f)];
            Resolvable(v) && !IsUintType(v.typ) && Resolve(v).Str? && f.kind.StringKind? ==>
              BindField(f, Resolutions(values)) == Ok(f.(val := Resolve(v)))
    ensures var v := values[ConfigName(f)];
            Resolvable(v) && IsUintType(v.typ) && Resolve(v).U? && f.kind.UintKind? ==>
              BindField(f, Resolutions(values)) == Ok(f.(val := U(Resolve(v).n % Modulus(f.kind.width))))
    ensures !Resolvable(values[ConfigName(f)]) ==> BindField(f, Resolutions(values)) == Err(NilFlag(ConfigName(f)))
  {
  }

  /** Appending the last element again to a slice of all but the last element. */
  lemma SnocSlice<T>(s: seq<T>, i: nat, p: seq<T>)
    requires i < |s|
    ensures p + s[..|s| - 1][i..] + [s[|s| - 1]] == p + s[i..]
  {
    assert s[..|s| - 1][i..] + [s[|s| - 1]] == s[i..];
  }

  /** Loading a struct a second time from the same table changes nothing more. */
  lemma {:induction false} BindAllIdempotent(fs: seq<Field>, res: map<string, Resolution>)
    requires BindAll(fs, res).1.None?
    ensures BindAll(BindAll(fs, res).0, res) == BindAll(fs, res)
    decreases |fs|
  {
    if fs != [] {
      var last := |fs| - 1;
      var init := fs[..last];
      var out := BindAll(fs, res).0;
      BindAllIdempotent(init, res);
      assert out[..|out| - 1] == BindAll(init, res).0;
      assert out[|out| - 1] == BindField(fs[last], res).value;
    }
  }

  // ---------------------------------------------------------------------------
  // The panic of the required check

  /** The corrected check reads an entry with no flag and an unset variable as if it had
      a flag holding an empty value: it takes the fallback, as resolve does for an empty
      flag. */
  lemma MissingFlagActsEmpty(v: Value, c: FlagCell)
    requires !v.useEnv && v.flag == null && IsZeroValue(c.val)
    ensures IntendedValue(v) == Resolve(v.(flag := c))
  {
  }

  /** A required descriptor with only an environment variable, left unset: */
  const EnvOnly: Descriptor := Argument("the bucket", Nil, "S3_BUCKET", "", "string", true)

  /** binding admits it with no flag and no environment value, and the check as written
      calls resolve on that entry and panics, where the intended result is argMissing. */
  lemma RequiredEnvOnlyPanics()
    ensures "s3_bucket" in Loaded([("s3_bucket", EnvOnly)], map[], map[])
    ensures !Resolvable(Loaded([("s3_bucket", EnvOnly)], map[], map[])["s3_bucket"])
    ensures CheckEntryAsWritten("s3_bucket", EnvOnly, Loaded([("s3_bucket", EnvOnly)], map[], map[])) == Panicked
    ensures CheckEntry("s3_bucket", EnvOnly, Loaded([("s3_bucket", EnvOnly)], map[], map[])) ==
              Some(ArgError(ArgMissing, EnvOnly))
  {
    var cfg: Schema := [("s3_bucket", EnvOnly)];
    assert cfg[..0] == [];
    assert LoadEnv(EnvOnly, map[]) == Err(NoEnvVar);
  }

  /** The same shape with a non-empty default: the check as written panics on it too,
      and the corrected check takes the default and reports nothing. */
  const EnvOnlyWithDefault: Descriptor := Argument("the bucket", Str("my-bucket"), "S3_BUCKET", "", "string", true)

  lemma EnvOnlyWithDefaultPasses()
    ensures CheckEntryAsWritten("s3_bucket", EnvOnlyWithDefault,
                                Loaded([("s3_bucket", EnvOnlyWithDefault)], map[], map[])) == Panicked
    ensures CheckEntry("s3_bucket", EnvOnlyWithDefault,
                       Loaded([("s3_bucket", EnvOnlyWithDefault)], map[], map[])).None?
  {
    var cfg: Schema := [("s3_bucket", EnvOnlyWithDefault)];
    assert cfg[..0] == [];
    assert LoadEnv(EnvOnlyWithDefault, map[]) == Err(NoEnvVar);
  }
}
