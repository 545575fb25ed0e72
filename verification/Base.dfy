/** Machine integers, the option type, the open modes and lists shared by all modules. */
module Base {
  const TWO_64: int := 0x1_0000_0000_0000_0000
  const TWO_32: int := 0x1_0000_0000
  const TWO_31: int := 0x8000_0000

  type uint64 = x: int | 0 <= x < 0x1_0000_0000_0000_0000

  type int32 = x: int | -0x8000_0000 <= x < 0x8000_0000

  /** Two's-complement increment of a 32-bit integer. */
  function Inc32(v: int32): int32 {
    if v == 0x7fff_ffff then -0x8000_0000 else v + 1
  }

  datatype Option<+T> = None | Some(value: T)

  /** The list without the element at position i. */
  function Without<T>(s: seq<T>, i: nat): seq<T>
    requires i < |s|
  {
    s[..i] + s[i + 1..]
  }

  ghost predicate NoRepeats<T>(s: seq<T>) {
    forall i, j :: 0 <= i < j < |s| ==> s[i] != s[j]
  }

  /** How a client opens a file. */
  datatype Mode = ReadMode | WriteMode | ReadWriteMode
}
