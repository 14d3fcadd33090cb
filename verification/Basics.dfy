/** Small things used throughout. */
module Basics {

  datatype Option<T> = None | Some(value: T)

  type Byte = x: int | 0 <= x < 256
  type Bytes = seq<Byte>

  /** The number of values of a 32-bit word. */
  const MOD32: int := 0x1_0000_0000

  predicate Distinct(a: seq<int>) {
    forall i, j :: 0 <= i < j < |a| ==> a[i] != a[j]
  }
}
