/** The 32-bit unsigned words of the target: size_t, TickType_t and UBaseType_t alike. */
module MachineWord {
  const WORD_LIMIT := 0x1_0000_0000

  type Word32 = x: int | 0 <= x < WORD_LIMIT

  /** A tick count or tick period. */
  type Tick = Word32

  function Add32(a: int, b: int): Word32 { (a + b) % WORD_LIMIT }

  function Sub32(a: int, b: int): Word32 { (a - b) % WORD_LIMIT }
}
