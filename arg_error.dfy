/**
  The error reported for a required descriptor, and its text (arg_error.go).
 */
module ArgErrors {
  import opened Scalars
  import opened Arguments

  /** argErrType: a Go `int`; only the two constants below have a text. */
  newtype ArgErrType = int

  const CouldNotParse: ArgErrType := 0
  const ArgMissing: ArgErrType := 1

  datatype ArgError = ArgError(error: ArgErrType, argument: Argument)

  /** The words the switch in String picks for an error code; other codes get none. */
  function Suffix(t: ArgErrType): string {
    if t == CouldNotParse then "could not be parsed"
    else if t == ArgMissing then "was not specified"
    else ""
  }

  /** String: "Argument <flag name>/<env name> <suffix>". */
  function Text(e: ArgError): string {
    "Argument " + e.argument.flagName + "/" + e.argument.envName + " " + Suffix(e.error)
  }

  /** The two known codes are 0 and 1, and they read differently. */
  lemma KnownSuffixes()
    ensures CouldNotParse == 0 && ArgMissing == 1
    ensures Suffix(CouldNotParse) == "could not be parsed"
    ensures Suffix(ArgMissing) == "was not specified"
  {
  }

  /** A concrete text: the port descriptor reported as missing. */
  lemma TextExample()
    ensures Text(ArgError(ArgMissing, Argument("the port", Nil, "PORT", "port", "uint", true))) ==
              "Argument port/PORT was not specified"
  {
    assert Suffix(ArgMissing) == "was not specified";
  }

  /** Any other code leaves the text ending in a bare space after the names. */
  lemma UnknownCodeText(e: ArgError)
    requires e.error != CouldNotParse && e.error != ArgMissing
    ensures Text(e) == "Argument " + e.argument.flagName + "/" + e.argument.envName + " "
  {
  }

  /** For one descriptor the text tells the two known errors apart, and tells either
      of them from an unknown code. */
  lemma TextDistinguishesCodes(a: Argument, t1: ArgErrType, t2: ArgErrType)
    requires t1 == CouldNotParse || t1 == ArgMissing
    requires t1 != t2
    ensures Text(ArgError(t1, a)) != Text(ArgError(t2, a))
  {
    var p := "Argument " + a.flagName + "/" + a.envName + " ";
    assert Text(ArgError(t1, a)) == p + Suffix(t1);
    assert Text(ArgError(t2, a)) == p + Suffix(t2);
    assert |Suffix(t1)| != |Suffix(t2)|;
  }
}
