/** Integer widths and time units shared by the models. */
module GoNumbers {
  /** The number of 64-bit words. */
  const WORD := 0x1_0000_0000_0000_0000

  /** A second in nanoseconds, as a time.Duration counts it. */
  const SECOND := 1_000_000_000
}
