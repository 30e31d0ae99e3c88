/** Basic value types shared by the whole registry (types.go, timestamped.go). */
module Types {

  /** 2^32: one past the largest value of a Go uint32. */
  const TwoTo32: int := 0x1_0000_0000

  /** 2^64: one past the largest value of a Go uint64. */
  const TwoTo64: int := 0x1_0000_0000_0000_0000

  type Uint32 = x: int | 0 <= x < TwoTo32

  type Uint64 = x: int | 0 <= x < TwoTo64

  /** EntityID is the unsigned 32-bit identifier of every stored entity. */
  type EntityID = Uint32

  /** FDevID is Frontier Development's own 32-bit id for a commodity. */
  type FDevID = Uint32

  /** A byte of a stream or of a stored key or value. */
  type Byte = x: int | 0 <= x < 256

  type Bytes = seq<Byte>

  /** A Unix timestamp as carried by the schema messages (a uint64 in the source). */
  type Timestamp = nat

  /** A Go pointer or interface that may be nil, or a lookup that may miss. */
  datatype Option<+T> = None | Some(value: T)
}
