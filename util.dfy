/** The big-endian `u32` writer of api/src/util.rs. */
module Util {
  import opened Bytes
  import Codec

  /** `(val >> 24) as u8`, `(val >> 16) as u8`, `(val >> 8) as u8`,
      `val as u8`: most significant byte first. */
  function BigEndianBytes(val: u32): seq<u8> {
    [val / 0x100_0000 % 0x100, val / 0x1_0000 % 0x100, val / 0x100 % 0x100, val % 0x100]
  }

  /** `encode_u32`: the caller's buffer must hold four bytes (shorter ones
      make the indexing panic); everything after them is left alone. */
  method EncodeU32(val: u32, buf: array<u8>)
    requires buf.Length >= 4
    modifies buf
    ensures buf[..] == BigEndianBytes(val) + old(buf[4..])
  {
    buf[0] := val / 0x100_0000 % 0x100;
    buf[1] := val / 0x1_0000 % 0x100;
    buf[2] := val / 0x100 % 0x100;
    buf[3] := val % 0x100;
  }

  function Reverse(s: seq<u8>): (r: seq<u8>)
    ensures |r| == |s| && forall i :: 0 <= i < |s| ==> r[i] == s[|s| - 1 - i]
  {
    if s == [] then [] else Reverse(s[1..]) + [s[0]]
  }

  /** The four bytes are those of the codec's little-endian `u32`, in the
      opposite order. */
  lemma BigEndianIsReversed(val: u32)
    ensures BigEndianBytes(val) == Reverse(Codec.U32Bytes(val))
  {
  }

  /** The big-endian image, read back to front by the codec's `u32`
      decoder, gives the value back: no two values share an image. */
  lemma BigEndianRoundTrip(val: u32)
    ensures Codec.DecodeU32(Reverse(BigEndianBytes(val))) == Ok(Codec.Decoded(4, val))
  {
    BigEndianIsReversed(val);
    var le := Codec.U32Bytes(val);
    assert Reverse(Reverse(le)) == le;
    Codec.U32RoundTrip(val, []);
    assert le + [] == le;
  }
}
