/**
  The destination of struct binding. Go's Load receives an `interface{}` and
  inspects it by reflection; here the destination is given explicitly: not a
  pointer, a pointer to something other than a struct, or a pointer to a struct
  whose fields are listed in order.
 */
module Targets {
  import opened Scalars

  /** The bit widths of Go's unsigned integer kinds (`uint` is 64 bits here). */
  datatype Width = W8 | W16 | W32 | W64

  /** How many bits a field of that width holds. */
  function Bits(w: Width): nat {
    match w
    case W8 => 8
    case W16 => 16
    case W32 => 32
    case W64 => 64
  }

  function Pow2(n: nat): (p: nat)
    ensures p > 0
  {
    if n == 0 then 1 else 2 * Pow2(n - 1)
  }

  lemma {:induction false} Pow2Add(a: nat, b: nat)
    ensures Pow2(a + b) == Pow2(a) * Pow2(b)
    decreases a
  {
    if a > 0 {
      Pow2Add(a - 1, b);
      assert 2 * (Pow2(a - 1) * Pow2(b)) == (2 * Pow2(a - 1)) * Pow2(b);
    }
  }

  lemma Pow2Widths()
    ensures Pow2(8) == 0x100 && Pow2(16) == 0x1_0000
    ensures Pow2(32) == 0x1_0000_0000 && Pow2(64) == UINT64_LIMIT
  {
    assert Pow2(4) == 16;
    Pow2Add(4, 4);
    Pow2Add(8, 8);
    assert Pow2(16) == 0x100 * 0x100;
    Pow2Add(16, 16);
    assert Pow2(32) == 0x1_0000 * 0x1_0000;
    Pow2Add(32, 32);
    assert Pow2(64) == 0x1_0000_0000 * 0x1_0000_0000;
  }

  /** The number SetUint truncates a field's new value modulo: 2 to the field's bit
      width. */
  function Modulus(w: Width): (m: nat)
    ensures m == Pow2(Bits(w)) && m <= UINT64_LIMIT
  {
    Pow2Widths();
    match w
    case W8 => 0x100
    case W16 => 0x1_0000
    case W32 => 0x1_0000_0000
    case W64 => UINT64_LIMIT
  }

  /** A field's reflect kind, as far as SetUint and SetString care. */
  datatype Kind = UintKind(width: Width) | StringKind | OtherKind

  /** One struct field: its Go name, its `config:"..."` tag ("" when absent), whether
      reflection may set it (exported fields only), its kind and its current value. */
  datatype Field = Field(name: string, tag: string, settable: bool, kind: Kind, val: Scalar)

  /** The config name a field binds to: its tag, or its own name when the tag is empty. */
  function ConfigName(f: Field): string {
    if f.tag != "" then f.tag else f.name
  }

  /** What Load may be handed; `kind` is the reflect kind's name, as in error texts. */
  datatype Target =
    | NotPointer(kind: string)
    | PointerTo(kind: string)
    | StructPointer(fields: array<Field>)

  /** The two fields agree on everything except possibly their value. */
  predicate SameShape(f: Field, g: Field) {
    f.name == g.name && f.tag == g.tag && f.settable == g.settable && f.kind == g.kind
  }
}
