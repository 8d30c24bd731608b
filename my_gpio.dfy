/**
 * A GPIO input line. The chip and line handles are hardware; what the motion
 * code sees is the stream of values `readValue` returns: 0 when the switch is
 * pressed (the line is pulled up), 1 when released, -1 when the line is not
 * available.
 */
module MyGpio {
  /** The value readValue gives when the line was never obtained. */
  const LineUnavailable := -1

  class Gpio {
    /** The values successive reads produce. */
    const values: nat -> int
    /** How many reads have been made. */
    var readAt: nat

    constructor (values: nat -> int)
      ensures this.values == values && readAt == 0
    {
      this.values := values;
      readAt := 0;
    }

    method ReadValue() returns (value: int)
      modifies this
      ensures value == values(old(readAt)) && readAt == old(readAt) + 1
    {
      value := values(readAt);
      readAt := readAt + 1;
    }
  }
}
