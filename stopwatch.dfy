/** The tick counter of src/stopwatch.rs: a 16-bit hardware count extended
    by a 16-bit count of its overflows. */
module Stopwatch {
  import opened Bytes

  class Stopwatch {
    var overflowCounter: u16

    /** `Stopwatch::new`, without the timer register set-up. */
    constructor ()
      ensures overflowCounter == 0
    {
      overflowCounter := 0;
    }

    /** `on_overflow`. The `u16` increment panics at 0xFFFF in a debug
        build, so the caller must not let the counter get there. */
    method OnOverflow()
      requires overflowCounter < 0xFFFF
      modifies this
      ensures overflowCounter == old(overflowCounter) + 1
      ensures forall raw: u16 :: Now(raw) > old(Now(raw))
    {
      overflowCounter := overflowCounter + 1;
    }

    /** `now`, with the hardware count `raw_value()` as a parameter:
        `(overflow_counter as u32) << 16` plus the raw count. The sum fits in
        a `u32`, so the Rust addition cannot overflow; the counter is its
        high half and the raw count its low half. */
    function Now(raw: u16): (t: u32)
      reads this
      ensures t / 0x1_0000 == overflowCounter && t % 0x1_0000 == raw
    {
      overflowCounter * 0x1_0000 + raw
    }
  }
}
