/**
  The descriptor the schema file supplies for one logical config name (the
  `argument` record of parser.go). Reading and decoding the file is not modelled.
 */
module Arguments {
  import opened Scalars

  /** - `description`: usage text for the flag;
      - `default`: the decoded JSON default: a number (`Num`), a string or nil;
      - `envName`, `flagName`: the environment variable and the flag; "" disables either;
      - `typ`: the declared type name ("uint", "uint8", ..., "string", or anything else);
      - `required`: whether a missing value is an error (the JSON key is "require"). */
  datatype Argument = Argument(
    description: string,
    default: Scalar,
    envName: string,
    flagName: string,
    typ: string,
    required: bool)

  /** The type names that loadFlag, loadEnv and Load treat as unsigned integers;
      every other name is handled as a string. */
  predicate IsUintType(t: string) {
    t == "uint" || t == "uint8" || t == "uint16" || t == "uint32" || t == "uint64"
  }

  /** A descriptor whose default the model can format: a string-typed descriptor has a
      string or nil default (formatting a number with "%s" is not modelled). */
  type Descriptor = a: Argument | IsUintType(a.typ) || a.default.Str? || a.default.Nil?
    witness Argument("", Nil, "", "", "string", false)
}
