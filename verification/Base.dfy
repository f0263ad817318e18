/** Fixed-width integers and other values every component uses. */
module Basics {
  const U64_MAX: int := 0xFFFF_FFFF_FFFF_FFFF
  const I64_MAX: int := 0x7FFF_FFFF_FFFF_FFFF
  const I64_MIN: int := -0x8000_0000_0000_0000

  type u8 = x: int | 0 <= x < 0x100
  type u32 = x: int | 0 <= x < 0x1_0000_0000
  type u64 = x: int | 0 <= x <= 0xFFFF_FFFF_FFFF_FFFF
  type i64 = x: int | -0x8000_0000_0000_0000 <= x <= 0x7FFF_FFFF_FFFF_FFFF

  datatype Option<+T> = None | Some(value: T)

  lemma Reassociate<T>(a: seq<T>, b: seq<T>, c: seq<T>)
    ensures a + (b + c) == a + b + c
  {
  }
}

/** Records and results of the channel operations. */
module Base {
  /** Most images a ring may hold. */
  const MAX_POOL: nat := 16

  datatype FlResult =
    | Ok | Timeout | Disconnected | VersionMismatch | FormatUnsupported
    | NotFound | Busy | Invalid | Oom | Internal

  /** A frame as its consumer sees it. `image` is an opaque allocation identity, 0 the null pointer. */
  datatype Frame = Frame(slot: nat, image: nat, ptsNs: int, sequence: nat, ready: nat)
}
