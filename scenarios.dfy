/**
  End-to-end runs of the loader on small schemas, with the results they must give.
 */
module Scenarios {
  import opened Scalars
  import opened Flags
  import opened Values
  import opened Arguments
  import opened ArgErrors
  import opened Targets
  import opened Loading

  /** The port descriptor: a required uint with default 8080, flag -port, variable PORT. */
  const Port: Descriptor := Argument("the port", Num(8080), "PORT", "port", "uint64", true)

  /** The specification functions on a schema of one descriptor. */
  lemma Single(name: string, c: Descriptor, env: map<string, string>, formal: map<string, Flag>,
               values: map<string, Value>)
    ensures Declared([(name, c)]) == if Registers(c) then map[c.flagName := c] else map[]
    ensures Loaded([(name, c)], env, formal) ==
              if Admitted(c, env) then map[name := Entry(c, env, CellFor(c, formal))] else map[]
    ensures RequiredErrors([(name, c)], values) == OptionToSeq(CheckEntry(name, c, values))
  {
    assert [(name, c)][..0] == [];
  }

  /** load on a fresh registry with a schema of one descriptor, stated for that
      descriptor alone. */
  method LoadOne(name: string, c: Descriptor, env: map<string, string>, args: map<string, Scalar>)
    returns (r: Registry, errs: seq<ArgError>)
    ensures name in r.values <==> Admitted(c, env)
    ensures forall n :: n in r.values ==> n == name
    ensures Admitted(c, env) ==> r.values[name] == Entry(c, env, CellFor(c, r.flags.formal))
    ensures Registers(c) ==> c.flagName in r.flags.formal && r.flags.formal[c.flagName].cell.val == Pointee(c, args)
    ensures !Registers(c) ==> r.flags.formal == map[]
    ensures errs == OptionToSeq(CheckEntry(name, c, r.values))
  {
    r := new Registry();
    var cfg: Schema := [(name, c)];
    Single(name, c, env, map[], map[]);
    errs := r.LoadConfig(cfg, env, args);
    Single(name, c, env, r.flags.formal, r.values);
    AtMostOneByMultiset(errs, OptionToSeq(CheckEntry(name, c, r.values)));
  }

  /** A sequence with the elements of a sequence of at most one element is that
      sequence. */
  lemma AtMostOneByMultiset<T>(s: seq<T>, t: seq<T>)
    requires |t| <= 1 && multiset(s) == multiset(t)
    ensures s == t
  {
    assert |s| == |multiset(s)|;
    if t != [] {
      assert s[0] in multiset(t);
    }
  }

  /** With nothing on the command line and PORT unset, the port is its default, and
      nothing is reported. */
  method PortDefault() returns (port: Scalar, errs: seq<ArgError>)
    ensures port == U(8080) && errs == []
  {
    var r;
    r, errs := LoadOne("port", Port, map[], map[]);
    assert Registers(Port) && Admitted(Port, map[]);
    port := Resolve(r.values["port"]);
  }

  /** A set variable wins over the command line. */
  method PortFromEnv() returns (port: Scalar)
    ensures port == U(9090)
  {
    var env := map["PORT" := "9090"];
    ParseExamplePort();
    var r, errs := LoadOne("port", Port, env, map["port" := U(1234)]);
    port := Resolve(r.values["port"]);
  }

  /** Without the variable, the command line wins over the default. */
  method PortFromFlag() returns (port: Scalar)
    ensures port == U(1234)
  {
    var r, errs := LoadOne("port", Port, map[], map["port" := U(1234)]);
    assert Registers(Port) && Admitted(Port, map[]);
    port := Resolve(r.values["port"]);
  }

  lemma ParseExamplePort()
    ensures LoadEnv(Port, map["PORT" := "9090"]) == Ok(U(9090))
  {
    assert "9090"[1..] == "090" && "090"[1..] == "90" && "90"[1..] == "0" && "0"[1..] == "";
    assert Decimal.DecimalValue("9090") == 9090;
  }

  /** A required string with no default, flag -s3-bucket and variable S3_BUCKET. */
  const Bucket: Descriptor := Argument("the bucket", Nil, "S3_BUCKET", "s3-bucket", "string", true)

  /** Given on the command line, the bucket is copied into the struct field tagged
      `config:"s3_bucket"`; a field no entry matches keeps its value. */
  method BucketIntoStruct() returns (bucket: Field, region: Field, err: Option<LoadError>)
    ensures bucket.val == Str("my-bucket") && region.val == Str("eu-west-1") && err.None?
  {
    var r, errs := LoadOne("s3_bucket", Bucket, map[], map["s3-bucket" := Str("my-bucket")]);
    assert Registers(Bucket) && Admitted(Bucket, map[]);
    BucketResolution(r.values);
    var a := new Field[2];
    a[0] := BucketField;
    a[1] := RegionField;
    BucketBinding(Resolutions(r.values));
    assert a[..] == [BucketField, RegionField];
    err := r.Load(StructPointer(a));
    bucket, region := a[0], a[1];
  }

  const BucketField := Field("Bucket", "s3_bucket", true, StringKind, Str(""))
  const RegionField := Field("Region", "", true, StringKind, Str("eu-west-1"))

  lemma BucketResolution(values: map<string, Value>)
    requires forall n :: n in values ==> n == "s3_bucket"
    requires "s3_bucket" in values && values["s3_bucket"].flag != null
    requires values["s3_bucket"] == Entry(Bucket, map[], values["s3_bucket"].flag)
    requires values["s3_bucket"].flag.val == Str("my-bucket")
    ensures Resolutions(values) == map["s3_bucket" := Resolution("string", Some(Str("my-bucket")))]
  {
    assert !UseEnv(Bucket, map[]);
  }

  lemma BucketBinding(res: map<string, Resolution>)
    requires res == map["s3_bucket" := Resolution("string", Some(Str("my-bucket")))]
    ensures BindAll([BucketField, RegionField], res) == ([BucketField.(val := Str("my-bucket")), RegionField], None)
  {
    var fs := [BucketField, RegionField];
    var g := BucketField.(val := Str("my-bucket"));
    assert ConfigName(BucketField) == "s3_bucket" && !IsUintType("string");
    assert BindField(BucketField, res) == Ok(g);
    assert BindField(RegionField, res) == Ok(RegionField);
    assert fs[..0] == [] && fs[..2] == fs;
    BindAllSnoc(fs, 0, res);
    BindAllSnoc(fs, 1, res);
    assert BindAll(fs[..1], res).0 == [] + [g] == [g];
    assert BindAll(fs, res).0 == [g] + [RegionField] == [g, RegionField];
  }

  /** Required and given nowhere: reported as not specified. */
  method BucketMissing() returns (errs: seq<ArgError>)
    ensures errs == [ArgError(ArgMissing, Bucket)]
  {
    var r;
    r, errs := LoadOne("s3_bucket", Bucket, map[], map[]);
    assert Registers(Bucket) && Admitted(Bucket, map[]) && !UseEnv(Bucket, map[]);
  }

  /** A uint descriptor whose default is not a number: nothing is registered, no entry
      is made, and the required check reports it as not parsed. */
  method MalformedDefault() returns (registered: bool, entered: bool, errs: seq<ArgError>)
    ensures !registered && !entered
    ensures errs == [ArgError(CouldNotParse, Argument("the port", Str("eighty"), "", "port", "uint", true))]
  {
    var c: Descriptor := Argument("the port", Str("eighty"), "", "port", "uint", true);
    var r;
    r, errs := LoadOne("port", c, map[], map[]);
    registered, entered := "port" in r.flags.formal, "port" in r.values;
  }
}
