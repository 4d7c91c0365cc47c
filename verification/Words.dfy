/** Fixed-width machine words as ranges of the mathematical integers. */
module Words {
  const W16 := 0x1_0000
  const W31 := 0x8000_0000
  const W32 := 0x1_0000_0000
  const W63 := 0x8000_0000_0000_0000
  const W64 := 0x1_0000_0000_0000_0000

  type Byte = x: int | 0 <= x < 256
  type U32 = x: int | 0 <= x < W32
  type S32 = x: int | -W31 <= x < W31
  type U64 = x: int | 0 <= x < W64
  type S64 = x: int | -W63 <= x < W63

  /** What a sender hands over in one call. */
  type Message = seq<Byte>

  /** The unsigned 32-bit word that holds x modulo 2^32. */
  function Unsigned32(x: int): U32 { x % W32 }

  /** The signed 32-bit word that holds x modulo 2^32. */
  function Signed32(x: int): S32 {
    if x % W32 < W31 then x % W32 else x % W32 - W32
  }

  /** The signed 64-bit word that holds x modulo 2^64. */
  function Signed64(x: int): S64 {
    if x % W64 < W63 then x % W64 else x % W64 - W64
  }
}
