/** Machine-level types of the 8-bit AVR target the time switch runs on:
    `int` is 16 bits, `uint16_t` is 16 bits, `unsigned long` (what `millis()`
    returns) is 32 bits, and a digital output pin is either LOW or HIGH. */
module Platform {

  const TWO_16: int := 0x1_0000
  const TWO_32: int := 0x1_0000_0000

  /** A C `int` on the target. */
  type Int16 = x: int | -0x8000 <= x < 0x8000

  /** A C `uint16_t`. */
  type U16 = x: int | 0 <= x < 0x1_0000

  /** A C `unsigned long`; also the millisecond clock `millis()`. */
  type U32 = x: int | 0 <= x < 0x1_0000_0000

  /** The level written to an output pin with `digitalWrite`. */
  datatype Level = Low | High

  /** The level a pin is driven to by `l == HIGH ? LOW : HIGH`. */
  function Opposite(l: Level): (r: Level)
    ensures r != l
  {
    if l == High then Low else High
  }

  /** `now - since` on two `unsigned long` clock readings: the subtraction wraps
      modulo 2^32, so the time elapsed is right across a clock roll-over too. */
  function Elapsed(now: U32, since: U32): (r: U32)
    ensures since <= now ==> r == now - since
    ensures now < since ==> r == TWO_32 - (since - now)
  {
    (now - since) % TWO_32
  }

  /** Storing an `unsigned long` into an `int`: the value is taken modulo 2^16
      into the signed range. */
  function ToInt16(x: U32): (r: Int16)
    ensures x < 0x8000 ==> r == x
    ensures (x - r) % TWO_16 == 0
  {
    var m := x % TWO_16;
    if m < 0x8000 then m else m - TWO_16
  }

  /** Comparing an `int` with an `unsigned long` converts the `int` to
      `unsigned long`: a negative value becomes a very large one. */
  function ToU32(x: Int16): (r: U32)
    ensures 0 <= x ==> r == x
    ensures x < 0 ==> r == x + TWO_32 && r >= TWO_32 - 0x8000
  {
    x % TWO_32
  }
}
