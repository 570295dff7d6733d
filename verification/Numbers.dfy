/** Bounds of numbers, and the milliseconds of a time in nanoseconds. */
module Numbers {

  /** Nanoseconds in a millisecond; instants and durations are nanoseconds. */
  const NANOS_PER_MILLI := 1_000_000

  function Millis(nanos: nat): nat {
    nanos / NANOS_PER_MILLI
  }

  function Min(a: nat, b: nat): nat {
    if a <= b then a else b
  }

  function Max(a: nat, b: nat): nat {
    if a >= b then a else b
  }

  function SaturatingSub(a: nat, b: nat): nat {
    if a >= b then a - b else 0
  }
}
