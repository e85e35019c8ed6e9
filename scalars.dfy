/**
  The dynamically typed scalars that the configuration engine carries in Go's
  `interface{}` slots, and the two wrapper types used for error returns.
 */
module Scalars {

  /** 2^64: one past the largest value a Go `uint64` holds. */
  const UINT64_LIMIT: int := 0x1_0000_0000_0000_0000

  type uint64 = n: int | 0 <= n < UINT64_LIMIT

  /** A value held in an `interface{}`:
      - `Str`: a Go `string`;
      - `U`: a Go `uint64` (what flag.Uint64 and strconv.ParseUint produce);
      - `Num`: a JSON number as encoding/json decodes it (a `float64` in Go), restricted
        here to integral values in the uint64 range;
      - `Nil`: the nil interface. */
  datatype Scalar = Str(s: string) | U(n: uint64) | Num(x: uint64) | Nil

  datatype Option<+T> = None | Some(value: T)

  datatype Result<+T, +E> = Ok(value: T) | Err(error: E)
}
