/**
 Fixed-width wire values of the Bebop bus protocol and their big-endian
 packing. Every multi-byte field on the bus travels high byte first, whatever
 the host's byte order; the driver's `swap16`/`swap32` calls are modelled as
 this big-endian decode of the bytes as they arrived.
 */
module Bytes {

  type byte = bv8

  /** An unsigned 16-bit field. */
  type u16 = bv16

  /** An unsigned 32-bit field. */
  type u32 = bv32

  /** The 16-bit value stored big-endian at `bs[at..at + 2]`. */
  function Be16At(bs: seq<byte>, at: nat): u16
    requires at + 2 <= |bs|
  {
    (bs[at] as u16 << 8) | bs[at + 1] as u16
  }

  /** The 32-bit value stored big-endian at `bs[at..at + 4]`. */
  function Be32At(bs: seq<byte>, at: nat): u32
    requires at + 4 <= |bs|
  {
    (bs[at] as u32 << 24) | (bs[at + 1] as u32 << 16)
    | (bs[at + 2] as u32 << 8) | bs[at + 3] as u32
  }

  /** The two wire bytes of a 16-bit field, high byte first. */
  function EncodeBe16(v: u16): (bs: seq<byte>)
    ensures |bs| == 2
    ensures Be16At(bs, 0) == v
  {
    [(v >> 8) as byte, (v & 0xFF) as byte]
  }

  /** The four wire bytes of a 32-bit field, most significant byte first. */
  function EncodeBe32(v: u32): (bs: seq<byte>)
    ensures |bs| == 4
    ensures Be32At(bs, 0) == v
  {
    [(v >> 24) as byte, ((v >> 16) & 0xFF) as byte,
     ((v >> 8) & 0xFF) as byte, (v & 0xFF) as byte]
  }

  /** Re-encoding a decoded 16-bit field gives back the bytes it came from. */
  lemma Be16Reencode(bs: seq<byte>, at: nat)
    requires at + 2 <= |bs|
    ensures EncodeBe16(Be16At(bs, at)) == bs[at..at + 2]
  {
  }

  /** Re-encoding a decoded 32-bit field gives back the bytes it came from. */
  lemma Be32Reencode(bs: seq<byte>, at: nat)
    requires at + 4 <= |bs|
    ensures EncodeBe32(Be32At(bs, at)) == bs[at..at + 4]
  {
  }

  /** A 16-bit field decodes the same from its own two-byte slice. */
  lemma Be16AtSlice(bs: seq<byte>, at: nat)
    requires at + 2 <= |bs|
    ensures Be16At(bs, at) == Be16At(bs[at..at + 2], 0)
  {
  }

  /** A 32-bit field decodes the same from its own four-byte slice. */
  lemma Be32AtSlice(bs: seq<byte>, at: nat)
    requires at + 4 <= |bs|
    ensures Be32At(bs, at) == Be32At(bs[at..at + 4], 0)
  {
  }
}
