/** Types shared by the binary object codec, the near update response and the
    DHT update future. Keys, values, versions and node ids are opaque to the
    code modelled here: it only stores, copies and compares them. */
module Common {

  datatype Option<+T> = None | Some(value: T)

  /** A node id (a UUID in the system); only compared for equality. */
  type NodeId = int

  /** A cache key object; opaque. */
  type Key = int

  /** A cache value object; opaque. */
  type Value = int

  /** A cache version token (topology version, order, node order). */
  datatype Version = Version(topVer: int, order: int, nodeOrder: int)

  /** A return-value holder carried back to the caller; opaque. */
  type Ret = int

  /** A throwable passed in as the cause of a failure; opaque. */
  type Cause = int

  /** An unsigned byte as stored in a byte array (Java's signed `byte`
      holds the same eight bits). */
  type Byte = b: int | 0 <= b < 256

  /** Smallest and largest values of a 32-bit and a 64-bit signed integer. */
  const INT_MIN: int := -0x8000_0000
  const INT_MAX: int := 0x7FFF_FFFF
  const LONG_MIN: int := -0x8000_0000_0000_0000
  const LONG_MAX: int := 0x7FFF_FFFF_FFFF_FFFF

  predicate IsInt(x: int) { INT_MIN <= x <= INT_MAX }
  predicate IsLong(x: int) { LONG_MIN <= x <= LONG_MAX }

  /** Java's 32-bit `int` arithmetic: the value of `x` wrapped into [INT_MIN, INT_MAX]. */
  function Wrap32(x: int): (r: int)
    ensures IsInt(r)
    ensures (r - x) % 0x1_0000_0000 == 0
    ensures IsInt(x) ==> r == x
  {
    (x - INT_MIN) % 0x1_0000_0000 + INT_MIN
  }
}
