/**
  The part of Go's `flag` package that the configuration engine relies on: a
  process-wide registry (flag.CommandLine) in which flag.Uint64 and flag.String
  register a named flag and hand back a pointer to its storage, and flag.Parse,
  which writes the values given on the command line into that storage.

  Reading and parsing os.Args is not modelled: `Parse` receives the already
  parsed values by flag name.
 */
module Flags {
  import opened Scalars
  import Decimal

  /** The storage of one flag: what `*uint64` or `*string` points to, and (for the
      proofs) the name it was registered under and the default it started with. */
  class FlagCell {
    var val: Scalar
    ghost const name: string
    ghost const init: Scalar

    constructor (name: string, v: Scalar)
      ensures this.name == name && val == v && init == v
    {
      this.name := name;
      val := v;
      init := v;
    }
  }

  /** A registered flag, as flag.Flag records it: its usage text, its storage and the
      text of its default (DefValue). */
  datatype Flag = Flag(usage: string, cell: FlagCell, defValue: string)

  /** The registry (flag.FlagSet with its `formal` map). */
  class FlagSet {
    var formal: map<string, Flag>
    /** The storage of every registered flag. */
    ghost var Repr: set<FlagCell>

    /** No two names share storage: each cell belongs to the name it was registered
        under. */
    ghost predicate Valid()
      reads this
    {
      forall n :: n in formal ==> formal[n].cell.name == n && formal[n].cell in Repr
    }

    constructor ()
      ensures Valid() && formal == map[] && Repr == {}
    {
      formal := map[];
      Repr := {};
    }

    /** flag.Uint64(name, def, help). Registering a name twice makes the flag package
        panic, so callers must not. */
    method Uint64(name: string, def: uint64, help: string) returns (p: FlagCell)
      requires Valid() && name !in formal
      modifies this
      ensures Valid() && fresh(p) && p.val == U(def) && p.init == U(def)
      ensures formal == old(formal)[name := Flag(help, p, Decimal.FormatUint(def))] && Repr == old(Repr) + {p}
    {
      p := new FlagCell(name, U(def));
      formal := formal[name := Flag(help, p, Decimal.FormatUint(def))];
      Repr := Repr + {p};
    }

    /** flag.String(name, def, help); the same rule about duplicate names applies. */
    method String(name: string, def: string, help: string) returns (p: FlagCell)
      requires Valid() && name !in formal
      modifies this
      ensures Valid() && fresh(p) && p.val == Str(def) && p.init == Str(def)
      ensures formal == old(formal)[name := Flag(help, p, def)] && Repr == old(Repr) + {p}
    {
      p := new FlagCell(name, Str(def));
      formal := formal[name := Flag(help, p, def)];
      Repr := Repr + {p};
    }

    /** flag.Parse: every registered flag that was given on the command line now holds
        the given value; every other flag keeps what it held. The registry itself is
        unchanged. */
    method Parse(args: map<string, Scalar>)
      requires Valid()
      modifies Repr
      ensures forall n :: n in formal ==>
                formal[n].cell.val == if n in args then args[n] else old(formal[n].cell.val)
    {
      var todo := set n | n in formal && n in args;
      while todo != {}
        invariant todo <= formal.Keys
        invariant forall n :: n in formal ==>
                    formal[n].cell.val == if n in args && n !in todo then args[n] else old(formal[n].cell.val)
        decreases todo
      {
        var n :| n in todo;
        formal[n].cell.val := args[n];
        todo := todo - {n};
      }
    }
  }
}
