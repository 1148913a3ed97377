/** Fixed-width unsigned integers of the firmware, as ranges of `int`. Where the source can wrap
    or truncate, `Word32` or `Word16` stands at the place it happens. */
module Machine {
  const WORD8 := 0x100
  const WORD16 := 0x1_0000
  const WORD32 := 0x1_0000_0000

  type uint8 = x: int | 0 <= x < WORD8
  type uint16 = x: int | 0 <= x < WORD16
  type uint32 = x: int | 0 <= x < WORD32

  /** Conversion to `uint16_t`. */
  function Word16(x: int): uint16 {
    x % 0x1_0000
  }

  /** Conversion to `uint32_t`. */
  function Word32(x: int): uint32 {
    x % 0x1_0000_0000
  }

  lemma SmallWord(x: nat)
    requires x < 0x1_0000_0000
    ensures Word32(x) == x
  {
  }

  lemma SmallHalfWord(x: nat)
    requires x < 0x1_0000
    ensures Word16(x) == x
  {
  }

  datatype Option<+T> = None | Some(value: T)
}
