/** The machine integers of the validator, and what a build does when one of them overflows. */
module Words {
  const TWO_TO_THE_64 := 0x1_0000_0000_0000_0000
  const TWO_TO_THE_128 := 0x1_0000_0000_0000_0000_0000_0000_0000_0000
  const I64_MAX := 0x7FFF_FFFF_FFFF_FFFF
  const I64_MIN := -0x8000_0000_0000_0000

  type byte = x: nat | x < 256
  type u64 = x: nat | x < TWO_TO_THE_64
  type u128 = x: nat | x < TWO_TO_THE_128

  /** The byte order of the host: the codec writes native-endian bytes. */
  datatype Endian = Big | Little

  /** What the compiler and the host fix: the byte order, and whether integer
      overflow panics (debug profile) or wraps (release profile). */
  datatype Build = Build(endian: Endian, overflowChecks: bool)
}
