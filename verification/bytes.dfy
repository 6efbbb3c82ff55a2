/** Byte strings and the small types that every other module shares. */
module Bytes {

  type byte = x: int | 0 <= x < 256
  type bytes = seq<byte>

  datatype Option<+T> = None | Some(value: T)

  /** A write to flash leaves the old or the new value; its result may be wrong
    * about a write that did happen, never about one that did not. */
  datatype Outcome = Done | NotDone | DoneButReportedFailed

  predicate LowerHex(c: char) {
    '0' <= c <= '9' || 'a' <= c <= 'f'
  }

  predicate AllHex(s: string) {
    forall i :: 0 <= i < |s| ==> LowerHex(s[i])
  }

  /** The random identity of one boot, as every component spells it. */
  predicate BootId(s: string) {
    |s| == 32 && AllHex(s)
  }

  const U32_LIMIT := 0x1_0000_0000
  const U64_LIMIT := 0x1_0000_0000_0000_0000
  const MAX_SIGNED_64 := 0x7fff_ffff_ffff_ffff
}
