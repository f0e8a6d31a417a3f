/**
 * The small part of the Arduino core that the controller relies on:
 * the fixed-width integer types of its fields, the `constrain` macro and
 * the wrap-around of the 32-bit millisecond counter returned by `millis()`.
 */
module Arduino {

  const TwoTo16: int := 0x1_0000
  const TwoTo32: int := 0x1_0000_0000

  type uint16 = x: int | 0 <= x < 0x1_0000
  type uint32 = x: int | 0 <= x < 0x1_0000_0000
  type int16 = x: int | -0x8000 <= x < 0x8000

  /** Arduino's `constrain(amt, low, high)`: `amt < low ? low : (amt > high ? high : amt)`. */
  function Constrain(amt: real, low: real, high: real): (r: real)
    ensures low <= high ==> low <= r <= high
    ensures low <= amt <= high ==> r == amt
    ensures high < low ==> r == low || r == high
  {
    if amt < low then low else if amt > high then high else amt
  }

  /**
   * The value `millis()` returns when `now` milliseconds have passed since
   * start-up: the counter is an unsigned 32-bit integer and wraps around.
   */
  function Millis(now: nat): (r: uint32)
    ensures r == now || now >= TwoTo32
  {
    now % TwoTo32
  }

  /**
   * `millis() - since` computed in unsigned 32-bit arithmetic: the
   * difference wraps around when the counter has overflowed since `since`.
   */
  function ElapsedSince(now: nat, since: uint32): (r: uint32)
    ensures (since + r) % TwoTo32 == Millis(now)
    ensures since <= Millis(now) ==> r == Millis(now) - since
    ensures Millis(now) < since ==> r == TwoTo32 + Millis(now) - since
  {
    (Millis(now) - since) % TwoTo32
  }
}
