/**
  The per-name record of what each source supplied, and the precedence rule that
  picks one value out of it (value.go).
 */
module Values {
  import opened Scalars
  import opened Flags

  /** One entry of the resolution table.
      - `useEnv`: the environment variable was set, so `env` wins;
      - `flag`: the storage of the registered flag, or null when no flag was registered;
      - `env`: the parsed environment value (`Nil` when there is none);
      - `fallback`: the descriptor's default;
      - `typ`: the descriptor's declared type name. */
  datatype Value = Value(useEnv: bool, flag: FlagCell?, env: Scalar, fallback: Scalar, typ: string)

  /** isZeroValue: only the empty string and nil count as empty. A uint64 is never
      empty, not even 0, and neither is a JSON number. */
  function IsZeroValue(v: Scalar): (z: bool)
    ensures z <==> v == Str("") || v == Nil
  {
    match v
    case Str(s) => s == ""
    case Nil => true
    case _ => false
  }

  /** `resolve` dereferences the flag pointer unless the environment wins; with no flag
      registered that dereference panics, so this is what a caller must ensure. */
  predicate Resolvable(v: Value) {
    v.useEnv || v.flag != null
  }

  /** resolve: the environment value if it was set; otherwise the flag's current value,
      unless that is empty, in which case the fallback. It reads the flag's storage and
      changes nothing. */
  function Resolve(v: Value): (r: Scalar)
    requires Resolvable(v)
    reads v.flag
    ensures v.useEnv ==> r == v.env
    ensures !v.useEnv && !IsZeroValue(v.flag.val) ==> r == v.flag.val
    ensures !v.useEnv && IsZeroValue(v.flag.val) ==> r == v.fallback
  {
    if v.useEnv then v.env
    else
      var val := v.flag.val;
      if IsZeroValue(val) then v.fallback else val
  }

  /** The resolution is empty exactly when the source that was chosen is empty: the
      environment value when it was set, otherwise both the flag and the fallback. */
  lemma ResolveEmptyIff(v: Value)
    requires Resolvable(v)
    ensures IsZeroValue(Resolve(v)) <==>
              if v.useEnv then IsZeroValue(v.env)
              else IsZeroValue(v.flag.val) && IsZeroValue(v.fallback)
  {
  }

  /** A uint64 flag never falls back, whatever it holds, 0 included. */
  lemma UintFlagNeverFallsBack(v: Value)
    requires !v.useEnv && v.flag != null && v.flag.val.U?
    ensures Resolve(v) == v.flag.val
  {
  }
}
