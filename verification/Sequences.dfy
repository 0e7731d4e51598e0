/** Small shared vocabulary. */
module Sequences {
  datatype Option<+T> = None | Some(value: T)

  type Byte = x: int | 0 <= x < 0x100
  type Bytes = seq<Byte>

  /** A path is the list of its names, below some root. */
  type Path = seq<string>

  predicate Distinct<T(==)>(values: seq<T>) {
    forall i, j :: 0 <= i < j < |values| ==> values[i] != values[j]
  }
}
