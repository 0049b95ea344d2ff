/** Fixed-width unsigned integers of the firmware, as ranges of `int`. */
module MachineInts {
  const U8_SPAN := 0x100
  const U16_SPAN := 0x1_0000
  const U32_SPAN := 0x1_0000_0000

  type uint8 = x: int | 0 <= x < 0x100
  type uint16 = x: int | 0 <= x < 0x1_0000
  type uint32 = x: int | 0 <= x < 0x1_0000_0000
  type int32 = x: int | -0x8000_0000 <= x < 0x8000_0000

  /** The `uint32_t` difference `now - since`: the shortest forward distance on the tick circle. */
  function Elapsed(now: uint32, since: uint32): (d: uint32)
    ensures (since + d) % U32_SPAN == now
  {
    (now - since) % U32_SPAN
  }

  /** As long as less than 2^32 ms really passed, truncated clocks measure the true distance. */
  lemma ElapsedIsExact(start: nat, end: nat)
    requires start <= end < start + U32_SPAN
    ensures Elapsed(end % U32_SPAN, start % U32_SPAN) == end - start
  {
    var a, b := start % U32_SPAN, end % U32_SPAN;
    assert start == (start / U32_SPAN) * U32_SPAN + a;
    assert end == (end / U32_SPAN) * U32_SPAN + b;
  }
}
