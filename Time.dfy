/** Machine integers and the millisecond clock of the ESP32 firmware.
    `millis()` returns a 32-bit `unsigned long`, so every duration in the
    tracker is an unsigned subtraction that wraps modulo 2^32. */
module Time {

  const TWO_32: int := 0x1_0000_0000
  const INT32_MAX: int := 0x7FFF_FFFF

  /** A 32-bit `unsigned long` (the ESP32 width). */
  type u32 = x: int | 0 <= x < TWO_32

  /** A 32-bit signed `int`, as the configuration parameters are declared. */
  type i32 = x: int | -0x8000_0000 <= x <= 0x7FFF_FFFF

  /** Unsigned subtraction `a - b` of two `unsigned long` values: the
      difference modulo 2^32 (Sub32IsMod), with at most one wrap. */
  function Sub32(a: u32, b: u32): u32
  {
    if a >= b then a - b else a - b + TWO_32
  }

  lemma Sub32IsMod(a: u32, b: u32)
    ensures Sub32(a, b) == (a - b) % TWO_32
  {
  }

  /** Unsigned addition `a + b` of two `unsigned long` values: the sum
      modulo 2^32 (Add32IsMod), with at most one wrap. */
  function Add32(a: u32, b: u32): u32
  {
    if a + b < TWO_32 then a + b else a + b - TWO_32
  }

  lemma Add32IsMod(a: u32, b: u32)
    ensures Add32(a, b) == (a + b) % TWO_32
  {
  }

  /** Milliseconds from `since` to `now`, `now - since` in unsigned arithmetic. */
  function Elapsed(since: u32, now: u32): u32
  {
    Sub32(now, since)
  }

  /** Durations survive the 49.7-day wrap of the clock: if `now` is read `d`
      milliseconds after `since`, the unsigned difference is exactly `d`,
      whether or not the counter wrapped in between. */
  lemma ElapsedAcrossWrap(since: u32, d: u32)
    ensures Elapsed(since, Add32(since, d)) == d
  {
  }
}
