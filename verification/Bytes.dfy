/** Bytes and the little-endian words that bearoff files keep in them. */
module Bytes {

  type Byte = n: nat | n < 256 witness 0

  /** The bytes before the data of a bearoff file. */
  const HEADER: nat := 40

  function Word(lo: nat, hi: nat): nat {
    lo + 256 * hi
  }
}
