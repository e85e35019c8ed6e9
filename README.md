# A verified model of the value-resolution engine of zabawaba99/config

zabawaba99/config reads a schema of configuration descriptors. Each descriptor
names a config entry and gives its description, default, environment variable,
flag name, type and whether it is required. For every entry the library
registers a command-line flag and reads the environment variable. It then
picks one value per entry by a fixed precedence: the environment first, then
the flag, then the default. It reports the required entries that got no
value, and finally copies the resolved values into the fields of a caller's
struct.

This project models that engine in Dafny and proves what it promises.

- `scalars.dfy` (`Scalars`): the values an `interface{}` slot carries: a
  string, a `uint64`, a JSON number, or nil. It also holds the `Option` and
  `Result` wrappers.
- `decimal.dfy` (`Decimal`): `strconv.ParseUint(s, 10, 64)` and
  `strconv.FormatUint(n, 10)`, with their round trip.
- `flags.dfy` (`Flags`): the part of Go's `flag` package that the loader uses.
  - `FlagSet` is the process-wide registry, with `Uint64`, `String` and `Parse`.
  - A registered flag's storage is a heap cell (`FlagCell`), because the
    table keeps pointers to it and `flag.Parse` later writes through them.
- `value.dfy` (`Values`): the per-entry record `value`, `isZeroValue` and the
  precedence rule `resolve` (value.go).
- `argument.dfy` (`Arguments`): the descriptor record read from the schema file.
- `arg_error.dfy` (`ArgErrors`): the error codes and their text (arg_error.go).
- `target.dfy` (`Targets`): the destination of `Load`, an explicit list of
  struct fields that stands in for reflection.
- `loader.dfy` (`Loading`): loader.go.
  - The package state is the class `Registry`: the `values` table and the flag set.
  - `LoadConfig` is `load`, built from `BindSources` (its first loop, one
    `BindOne` per descriptor) and `CheckRequired` (its second loop).
  - `Load` is `Load`, with the field loop `BindFields` working in place on an
    array. Each method is proved against the specification functions beside it
    (`Loaded`, `Declared`, `RequiredErrors`, `BindAll`).
- `loader_props.dfy` (`LoadingProperties`): the properties of those
  specification functions.
- `scenarios.dfy` (`Scenarios`): end-to-end runs on small schemas, shaped after
  example/main.go. They cover a port with default 8080 and variable `PORT`, and
  a required `s3_bucket`.

Modelling choices:

- The environment is a `map<string, string>`; a missing key reads as `""`, as
  `os.Getenv` does.
- The command line reaches `Parse` as a map from flag name to the parsed value.
- The schema is a sequence of (name, descriptor) pairs. The source iterates a
  Go map, whose order is unspecified, so `LoadConfig` promises its errors only
  up to permutation.
- `isZeroValue` (value.go:37-46) treats only `""` and nil as empty. A uint64
  is never empty, 0 included, so a uint flag holding 0 never falls back.
- loader.go:70 writes `value{Type: c.Type, Default: c.Default}`, but `value`
  has no `Default` field, so that line does not compile. The model uses the
  evident intent, `Fallback: c.Default`.

## Model

| member | source | states |
|---|---|---|
| Values.IsZeroValue | value.go:37-46 | true exactly for the empty string and nil; every uint64, 0 included, and every number are non-empty |
| Values.Resolve | value.go:21-35 | a set environment value wins whatever the flag and fallback hold; otherwise the flag's value unless it is empty, then the fallback; requires a flag when the environment does not win; reads only the flag storage and changes nothing |
| Values.ResolveEmptyIff | value.go:22-46 | the resolution is empty iff the chosen source is: the env value when set, otherwise both the flag value and the fallback |
| Values.UintFlagNeverFallsBack | value.go:28-34 | with no env value, a flag holding a uint64 (0 included) is always the result |
| Decimal.ParseUint | loader.go:142-145 | succeeds exactly on non-empty all-digit text whose value is below 2^64, and then yields that value |
| Decimal.FormatUintDenotes | loader.go:122 | the default text of a uint64 flag is a non-empty digit string that denotes the number |
| Decimal.ParseFormatRoundTrip | loader.go:142 | parsing the decimal text of any uint64 gives it back |
| Decimal.ParseRejectsOverflow | loader.go:142-145 | the decimal text of any number from 2^64 up is an error |
| Decimal.ParseExamples | loader.go:142-145 | "123" is 123 and "007" is 7; "-1", "12a" and "" are errors |
| Flags.FlagSet.Uint64 | loader.go:122 | registers a fresh uint64 cell holding the default under the name, with its usage and decimal default text; nothing else in the registry changes |
| Flags.FlagSet.String | loader.go:128 | registers a fresh string cell holding the default under the name, with its usage and default text; nothing else changes |
| Flags.FlagSet.Parse | loader.go:91 | every registered flag given on the command line holds the given value, every other flag keeps its value; the registry itself is unchanged |
| Loading.LoadEnv | loader.go:133-151 | errNoEnvVar exactly when the variable is unset or empty; a uint-family type gives a uint64 exactly when the text parses base 10, else a parse error; any other type yields the raw text |
| Loading.FlagDefault | loader.go:115-129 | a uint-family descriptor has a valid flag default exactly when its default is a number, and it is that number; the only error is "invalid"; any other type gets its string default, or "" for nil |
| Loading.LoadFlag | loader.go:113-131 | "invalid" leaves the registry unchanged; otherwise one fresh flag holding that default is registered under the flag name with the description and default text, and nothing else changes |
| Loading.CheckEntry | loader.go:94-109 | no error iff the descriptor is optional or its entry's intended value is non-empty; couldNotParse iff the entry is absent; otherwise argMissing; the error carries the descriptor |
| Loading.CheckEntryAsWritten | loader.go:99-108 | as written, the check panics exactly on a required entry with neither a set variable nor a flag, and otherwise agrees with CheckEntry |
| Loading.BindField | loader.go:169-194 | an unsettable or unmatched field is unchanged; a matched field binds iff its entry resolves to a value of the entry type's variant and the field's kind fits, and then gets the resolution, truncated to its width for uint types or as a string otherwise; the errors are: nil flag iff the entry does not resolve, wrong variant iff the resolution is not of that variant (a fallback number or nil included), wrong kind iff the variant fits but the field's kind does not; the field's shape never changes |
| Loading.BindAll | loader.go:168-195 | the field loop yields one field per input field |
| Loading.BindAllStops | loader.go:168-195 | a field that fails to bind stops the loop: the fields before it stay bound, it and all later fields stay as they were |
| Loading.BindAllAfterError | loader.go:168-195 | once the loop has failed, later fields are passed through unchanged with the same error |
| Loading.BoundStep | loader.go:69-89 | one iteration of load's first loop extends the table and the registry relation from a prefix of the schema to the next longer prefix |
| Loading.DeclaredMember | loader.go:73-74 | a flag name is declared exactly when some descriptor of the schema registers it |
| Loading.DeclaredNames | loader.go:73-74 | each declared flag is declared by a descriptor that registers it under that name |
| Loading.LoadedStable | loader.go:69-89 | the table depends on the registry only at the schema's own flag names |
| Loading.Registry.constructor | loader.go:15 | the table starts empty and so does the flag set |
| Loading.Registry.BindOne | loader.go:69-89 | one descriptor: its flag is registered iff its default is valid, holding that default; the entry goes into the table with that flag and its env value iff both sources were valid; every earlier flag, and every entry under another name, is kept |
| Loading.Registry.BindNext | loader.go:69-90 | carries the loop invariant of load's first loop across one descriptor, including that every new flag still holds its default |
| Loading.Registry.BindSources | loader.go:67-90 | afterwards the table is the old table plus every admitted descriptor's entry, the registry is the old one plus every declared flag (fresh, holding its default), and no earlier flag changes |
| Loading.Registry.CheckRequired | loader.go:93-110 | the errors are exactly RequiredErrors of the schema over the current table |
| Loading.Registry.LoadConfig | loader.go:67-111 | load: every admitted entry is in the table; every declared flag holds its command-line value or its default; earlier flags hold their command-line value or keep theirs; the errors are the required-check errors, up to order |
| Loading.Registry.Load | loader.go:155-197 | a non-pointer is errNotPtr and a pointer to a non-struct is the kind's error, both changing nothing; a struct pointer's fields become exactly what BindAll makes of them |
| Loading.BindFields | loader.go:166-196 | the in-place field loop leaves the array and returns the error exactly as BindAll specifies |
| LoadingProperties.LoadedEntries | loader.go:69-89 | with distinct config names, an entry is present iff its descriptor is admitted (valid flag default, and variable unset or parsable), and then it is built from that descriptor's own sources |
| LoadingProperties.LoadedAbsent | loader.go:69-89 | a name that no descriptor has gets no entry |
| LoadingProperties.LoadedNames | loader.go:89 | every entry of the table is a config name of the schema |
| LoadingProperties.EnvWinsOverFlag | loader.go:81-88 | an entry whose variable is set and parses resolves to the parsed value, whatever its flag holds |
| LoadingProperties.FlagWithoutEnv | loader.go:81-83 | with the variable unnamed or empty, an entry with a flag resolves to the flag's value, or to the default when the flag holds "" or nil |
| LoadingProperties.UintEntryResolvesToUint | loader.go:141-146 | an admitted uint-family entry resolves to a uint64 whichever source wins, provided its flag holds one |
| LoadingProperties.LoadEnvUintRoundTrip | loader.go:141-146 | the decimal text of a uint64 in the variable of a uint-family descriptor loads as that number |
| LoadingProperties.LoadEnvExamples | loader_test.go:94-126 | "123" loads as 123 for each uint-family type; "somestring" loads as itself for a string; "-1" is a parse error; an unset variable is errNoEnvVar |
| LoadingProperties.DefValueRoundTrip | loader.go:116-122 | the default text a uint flag is registered with parses back to its default |
| LoadingProperties.DefValueExamples | loader_test.go:33-82 | a uint flag with default 123 records "123"; a string flag records its default text; a nil default records "" |
| LoadingProperties.PointeeWellTyped | loader.go:189-194 | when the command line gives values of the flags' own types, a registered uint flag holds a uint64 and a string flag a string |
| LoadingProperties.RequiredErrorsMembers | loader.go:94-110 | an error is reported iff some descriptor's check gives it |
| LoadingProperties.RequiredErrorsAtMostOneEach | loader.go:94-110 | there are exactly as many errors as descriptors whose check fails, so none is reported twice, and at most as many as descriptors |
| LoadingProperties.MissingFlagActsEmpty | value.go:28-33 | the corrected check reads an entry with no flag and an unset variable as resolve reads one whose flag holds an empty value: it gets the fallback |
| LoadingProperties.RequiredErrorsNone | loader.go:94-110 | no errors iff every descriptor passes its check |
| LoadingProperties.ReportedAreRequired | loader.go:95-107 | only required descriptors are reported, always as couldNotParse or argMissing |
| LoadingProperties.BindAllSucceeds | loader.go:168-196 | the loop succeeds iff every field binds, and then each field is what BindField makes of it |
| LoadingProperties.BindAllFails | loader.go:168-195 | on failure the error is that of the first field that does not bind; the fields before it are bound and it and the later ones are untouched |
| LoadingProperties.BindAllEach | loader.go:168-195 | each field ends either as it was or as BindField sets it |
| LoadingProperties.BindAllFields | loader.go:168-195 | binding keeps every field's shape; unsettable and unmatched fields always end as they were |
| LoadingProperties.MatchedFieldGetsResolve | loader.go:186-194 | a settable field matched to an entry receives that entry's resolve(), truncated to the field's width for uint types, when value and field have the entry type's variant; an entry that cannot be resolved gives the nil-flag error |
| LoadingProperties.BindAllIdempotent | loader.go:168-195 | loading a struct a second time from the same table changes nothing more |
| LoadingProperties.RequiredEnvOnlyPanics | loader.go:104-108 | a required descriptor with only an unset variable and a nil default is admitted with no flag; the check as written panics on it, the corrected check reports argMissing |
| LoadingProperties.EnvOnlyWithDefaultPasses | loader.go:104-108 | with a non-empty default the check as written still panics on that descriptor, and the corrected check takes the default and reports nothing |
| Scenarios.PortDefault | example/main.go:9-16 | the port with no flag and no variable is 8080 and nothing is reported |
| Scenarios.PortFromEnv | loader.go:81-83 | with PORT=9090 and -port 1234 the port is 9090 |
| Scenarios.PortFromFlag | loader.go:91 | with -port 1234 and PORT unset the port is 1234 |
| Scenarios.LoadOne | loader.go:67-111 | load of a one-descriptor schema: the entry is present exactly when admitted and is built from the descriptor, a registered flag holds its command-line value or its default, and the errors are exactly that entry's required-check error, if any |
| Scenarios.BucketIntoStruct | example/main.go:9-16 | Load sets the field tagged s3_bucket to "my-bucket", leaves an unmatched field alone and succeeds |
| Scenarios.BucketResolution | loader.go:188 | that entry resolves to "my-bucket" |
| Scenarios.BucketBinding | loader.go:168-195 | the two-field struct binds to the bucket value and the unchanged second field |
| Scenarios.BucketMissing | loader.go:105-107 | a required bucket given nowhere is reported as argMissing, once |
| Scenarios.MalformedDefault | loader.go:73-78 | a uint descriptor with a non-numeric default registers no flag, gets no entry and is reported as couldNotParse |
| ArgErrors.KnownSuffixes | arg_error.go:7-24 | couldNotParse is 0 and argMissing is 1, with the words "could not be parsed" and "was not specified" |
| ArgErrors.TextExample | arg_error.go:17-26 | the text of a missing port is "Argument port/PORT was not specified" |
| ArgErrors.UnknownCodeText | arg_error.go:18-26 | any other code gives "Argument flag/env " with a bare trailing space |
| ArgErrors.TextDistinguishesCodes | arg_error.go:19-26 | for one descriptor, the two known codes give different texts, and each differs from any other code's text |
| Targets.Modulus | loader.go:191 | a uint field's new value is truncated modulo 2 to the power of the field's bit width (8, 16, 32 or 64), which is at most 2^64 |
| Targets.Pow2Widths | loader.go:191 | 2^8, 2^16, 2^32 and 2^64 have the values the field widths truncate to |

## Left out

- `init` and `printUsageAndExit` (loader.go:17-65): they find and parse the
  schema file, print to stderr and exit the process, which is I/O.
- Reading and decoding the schema file (parser.go) is not part of this model.
  The descriptor record is an input.
- `flag.Parse` reading `os.Args` is not modelled: the parsed values are a
  parameter of `LoadConfig`.
- The flag package panics when a name is registered twice. That is not
  modelled: `LoadConfig` requires the schema's flag names to be distinct and
  not yet registered (`FlagNamesFree`).
- Loading.FlagDefault: the float64-to-uint64 conversion of a JSON number is
  not modelled. Numbers are whole and in the uint64 range, so the conversion is
  the identity.
- Arguments.Descriptor: `fmt.Sprintf("%s", ...)` of a non-string default is
  not modelled. A descriptor of a non-uint type has a string or nil default.
- The `println` diagnostics of load (loader.go:76, 85) are not modelled.
- Loading.Registry.Load: reflection is replaced by an explicit field list. The
  panics of `Load` (resolving an entry with no flag, a failed `.(uint64)` or
  `.(string)` assertion, SetUint or SetString on a field of another kind) are
  explicit error values. Like the panic, each stops the loop.
- Loading.Registry.Load: the two error texts (errNotPtr, "can only load config
  into a struct not: ...") are represented by the constructors `NotPtr` and
  `NotStruct(kind)`.
- Loading.Registry.LoadConfig: the order of the reported errors follows a Go
  map iteration, so only the multiset of errors is promised.
- Loading.Registry.LoadConfig: the required check uses the corrected
  `CheckEntry` (see Findings). As written, that check panics on one input.
- Loading.Registry.Load: the bound of a `uint` field is 64 bits, as on a 64-bit
  platform.

## Findings

| source | as written | input that shows it | evidently intended | confidence | as-written member | corrected member |
|---|---|---|---|---|---|---|
| loader.go:105 | the required check calls `val.resolve()` on every entry that is present | a required descriptor with an environment variable, no flag name and the variable unset: load puts it in the table with no flag, and resolve dereferences the nil flag and panics | treat the missing flag like an empty one: the entry's value is its fallback (value.go:13), and argMissing is reported only when that is empty too. The correction covers only the required check: the same nil-flag resolve in Load (loader.go:188) is kept as written, as the NilFlag error of Loading.BindField | not executed | Loading.CheckEntryAsWritten, LoadingProperties.RequiredEnvOnlyPanics, LoadingProperties.EnvOnlyWithDefaultPasses | Loading.CheckEntry |
