/** The tag-prefixed binary codec of api/src/data.rs: the `State`, `Reading`
    and `ClientHostMessage` values, their wire images, the in-place encoders
    and the decoders, with the round trips between them. */
module Codec {
  import opened Bytes

  /** The packed byte of a `State`: only bit 0 (channel 1) and bit 1
      (channel 2) may be set. The Rust field is private and set only by
      `State::new` and `State::decode`, which keep it in this range. */
  type StateByte = x: u8 | x <= 3

  datatype State = State(data: StateByte) {
    /** `State::new`. The Rust `|` of two disjoint bits is their sum. */
    static function New(channel1: bool, channel2: bool): (s: State)
      ensures s.Channel1() == channel1 && s.Channel2() == channel2
    {
      State((if channel1 then 1 else 0) + (if channel2 then 2 else 0))
    }

    /** `data & 1 == 1` */
    predicate Channel1() {
      data % 2 == 1
    }

    /** `(data >> 1) & 1 == 1` */
    predicate Channel2() {
      data / 2 % 2 == 1
    }
  }

  datatype Reading = Reading(state: State, time: u32) {
    /** `Reading::new` */
    static function New(time: u32, channel1: bool, channel2: bool): (r: Reading)
      ensures r.time == time
      ensures r.state.Channel1() == channel1 && r.state.Channel2() == channel2
    {
      Reading.Reading(State.New(channel1, channel2), time)
    }
  }

  datatype ClientHostMessage =
    | Reading(reading: Reading)
    | FrequencyHertz(hertz: u32)
    | Reset(channel: u8)
    | CurrentTime(ticks: u32)

  /** The Rust `BufferToSmall`, spelled as in the source. */
  datatype EncodingError = BufferToSmall

  /** The context string the Rust `UnexpectedByte` carries is not modelled. */
  datatype DecodingError = EndOfBytes | UnexpectedByte(byte: u8)

  /** A decoder's success: the bytes it consumed and the value. */
  datatype Decoded<T> = Decoded(used: nat, value: T)

  /** The tag byte `ClientHostMessage::encode` writes first. */
  function Tag(m: ClientHostMessage): u8 {
    match m
    case Reading(_) => 1
    case FrequencyHertz(_) => 2
    case Reset(_) => 3
    case CurrentTime(_) => 4
  }

  // ---------------------------------------------------------------------------
  // Wire images: the bytes an encoder writes when the buffer is big enough.
  // ---------------------------------------------------------------------------

  function U8Bytes(x: u8): seq<u8> {
    [x]
  }

  /** `x as u8`, `(x >> 8) as u8`, `(x >> 16) as u8`, `(x >> 24) as u8`:
      least significant byte first. */
  function U32Bytes(x: u32): seq<u8> {
    [x % 0x100, x / 0x100 % 0x100, x / 0x1_0000 % 0x100, x / 0x100_0000 % 0x100]
  }

  function StateBytes(s: State): seq<u8> {
    [s.data]
  }

  function ReadingBytes(r: Reading): seq<u8> {
    StateBytes(r.state) + U32Bytes(r.time)
  }

  function PayloadBytes(m: ClientHostMessage): seq<u8> {
    match m
    case Reading(r) => ReadingBytes(r)
    case FrequencyHertz(hz) => U32Bytes(hz)
    case Reset(ch) => U8Bytes(ch)
    case CurrentTime(t) => U32Bytes(t)
  }

  function MessageBytes(m: ClientHostMessage): seq<u8> {
    [Tag(m)] + PayloadBytes(m)
  }

  /** The wire length of every variant: tag plus payload. */
  lemma MessageLength(m: ClientHostMessage)
    ensures |MessageBytes(m)| == match m
                                 case Reading(_) => 6
                                 case FrequencyHertz(_) => 5
                                 case Reset(_) => 2
                                 case CurrentTime(_) => 5
    ensures 2 <= |MessageBytes(m)| <= 6
  {
  }

  // ---------------------------------------------------------------------------
  // Encoders. Each writes into the caller's buffer from index `off` on, `off`
  // standing for the Rust sub-slice `buffer[off..]`.
  // ---------------------------------------------------------------------------

  /** What an encoder of wire image `bytes` returns when `room` bytes of
      buffer are available: the image length, or `BufferToSmall`. */
  function EncodeResult(bytes: seq<u8>, room: nat): (r: Result<nat, EncodingError>)
    ensures r.Ok? <==> |bytes| <= room
    ensures r.Ok? ==> r.value == |bytes|
  {
    if |bytes| <= room then Ok(|bytes|) else Err(BufferToSmall)
  }

  /** How many leading bytes of `bytes` an encoder writes into `room` bytes:
      all of them when they fit; otherwise the `eager` leading bytes (a tag,
      a `State`) that composite encoders write before a later part finds the
      buffer too small, as far as they fit. */
  function WrittenCount(bytes: seq<u8>, eager: nat, room: nat): (n: nat)
    ensures n <= |bytes| && n <= room
    ensures n == |bytes| <==> |bytes| <= room
  {
    if |bytes| <= room then |bytes| else Min(eager, room)
  }

  /** `after` is `before` with the bytes an encoder of image `bytes` writes
      at `off` written in, and nothing else changed. */
  ghost predicate Wrote(after: seq<u8>, before: seq<u8>, off: nat, bytes: seq<u8>, eager: nat)
    requires off <= |before|
  {
    after == Splice(before, off, bytes[..WrittenCount(bytes, eager, |before| - off)])
  }

  /** The partial write of a `Reading`: its `State` byte goes in before the
      `u32` checks the room. */
  const READING_EAGER: nat := 1

  /** The partial write of a message: its tag, and for a `Reading` the
      `Reading`'s own partial write. */
  function MessageEager(m: ClientHostMessage): nat {
    if m.Reading? then 1 + READING_EAGER else 1
  }

  /** An encoder that writes `head` in full and then hands the rest of the
      buffer to an encoder of `tail` writes, and returns, what an encoder of
      `head + tail` that writes `head` eagerly does. */
  lemma WroteAfter(before: seq<u8>, mid: seq<u8>, after: seq<u8>, off: nat,
                   head: seq<u8>, tail: seq<u8>, eager: nat)
    requires off + |head| <= |before|
    requires mid == Splice(before, off, head)
    requires Wrote(after, mid, off + |head|, tail, eager)
    ensures Wrote(after, before, off, head + tail, |head| + eager)
    ensures var room := |before| - off - |head|;
            EncodeResult(head + tail, |before| - off) ==
              if EncodeResult(tail, room).Ok? then Ok(|head| + |tail|) else Err(BufferToSmall)
  {
    var w := WrittenCount(tail, eager, |before| - off - |head|);
    SpliceTwice(before, off, head, tail[..w]);
    assert head + tail[..w] == (head + tail)[..|head| + w];
  }

  method EncodeU8(x: u8, buf: array<u8>, off: nat) returns (r: Result<nat, EncodingError>)
    requires off <= buf.Length
    modifies buf
    ensures r == EncodeResult(U8Bytes(x), buf.Length - off)
    ensures Wrote(buf[..], old(buf[..]), off, U8Bytes(x), 0)
  {
    if buf.Length - off < 1 {
      return Err(BufferToSmall);
    }
    buf[off] := x;
    r := Ok(1);
  }

  method EncodeState(s: State, buf: array<u8>, off: nat) returns (r: Result<nat, EncodingError>)
    requires off <= buf.Length
    modifies buf
    ensures r == EncodeResult(StateBytes(s), buf.Length - off)
    ensures Wrote(buf[..], old(buf[..]), off, StateBytes(s), 0)
  {
    if buf.Length - off < 1 {
      return Err(BufferToSmall);
    }
    buf[off] := s.data;
    r := Ok(1);
  }

  method EncodeU32(x: u32, buf: array<u8>, off: nat) returns (r: Result<nat, EncodingError>)
    requires off <= buf.Length
    modifies buf
    ensures r == EncodeResult(U32Bytes(x), buf.Length - off)
    ensures Wrote(buf[..], old(buf[..]), off, U32Bytes(x), 0)
  {
    if buf.Length - off < 4 {
      return Err(BufferToSmall);
    }
    buf[off] := x % 0x100;
    buf[off + 1] := x / 0x100 % 0x100;
    buf[off + 2] := x / 0x1_0000 % 0x100;
    buf[off + 3] := x / 0x100_0000 % 0x100;
    r := Ok(4);
  }

  /** `State` then `u32`; a failing `u32` leaves the `State` byte written. */
  method EncodeReading(rd: Reading, buf: array<u8>, off: nat) returns (r: Result<nat, EncodingError>)
    requires off <= buf.Length
    modifies buf
    ensures r == EncodeResult(ReadingBytes(rd), buf.Length - off)
    ensures Wrote(buf[..], old(buf[..]), off, ReadingBytes(rd), READING_EAGER)
  {
    var used :- EncodeState(rd.state, buf, off);
    ghost var stated := buf[..];
    var inner := EncodeU32(rd.time, buf, off + used);
    WroteAfter(old(buf[..]), stated, buf[..], off, StateBytes(rd.state), U32Bytes(rd.time), 0);
    var k :- inner;
    r := Ok(used + k);
  }

  /** The `match` that hands the rest of the buffer to the variant's own
      encoder. */
  method EncodePayload(m: ClientHostMessage, buf: array<u8>, off: nat)
    returns (r: Result<nat, EncodingError>)
    requires off <= buf.Length
    modifies buf
    ensures r == EncodeResult(PayloadBytes(m), buf.Length - off)
    ensures Wrote(buf[..], old(buf[..]), off, PayloadBytes(m), MessageEager(m) - 1)
  {
    match m {
      case Reading(rd) => r := EncodeReading(rd, buf, off);
      case FrequencyHertz(hz) => r := EncodeU32(hz, buf, off);
      case Reset(ch) => r := EncodeU8(ch, buf, off);
      case CurrentTime(t) => r := EncodeU32(t, buf, off);
    }
  }

  /** The tag, then the variant's own encoder into the rest of the buffer;
      a failing variant encoder leaves the tag written. */
  method EncodeMessage(m: ClientHostMessage, buf: array<u8>, off: nat)
    returns (r: Result<nat, EncodingError>)
    requires off <= buf.Length
    modifies buf
    ensures r == EncodeResult(MessageBytes(m), buf.Length - off)
    ensures Wrote(buf[..], old(buf[..]), off, MessageBytes(m), MessageEager(m))
  {
    if buf.Length - off < 1 {
      return Err(BufferToSmall);
    }
    buf[off] := Tag(m);
    assert buf[..] == Splice(old(buf[..]), off, [Tag(m)]);
    ghost var tagged := buf[..];
    var inner := EncodePayload(m, buf, off + 1);
    WroteAfter(old(buf[..]), tagged, buf[..], off, [Tag(m)], PayloadBytes(m), MessageEager(m) - 1);
    var used :- inner;
    r := Ok(used + 1);
  }

  /** What a message encode that fails for lack of room leaves behind: the
      tag at `off`, and for a `Reading` with room for it also the `State`
      byte; every other byte of the buffer is as it was. */
  lemma FailedEncodeLeavesPrefix(m: ClientHostMessage, before: seq<u8>, after: seq<u8>, off: nat)
    requires 1 <= |before| - off < |MessageBytes(m)|
    requires Wrote(after, before, off, MessageBytes(m), MessageEager(m))
    ensures EncodeResult(MessageBytes(m), |before| - off) == Err(BufferToSmall)
    ensures |after| == |before| && after[off] == Tag(m)
    ensures m.Reading? && |before| - off >= 2 ==> after[off + 1] == m.reading.state.data
    ensures forall i :: 0 <= i < |before| && !(off <= i < off + MessageEager(m)) ==> after[i] == before[i]
  {
    MessageLength(m);
  }

  /** The source's encode-then-decode test: a message encoded into a buffer
      of at least 6 bytes decodes from that buffer to itself, consuming
      exactly the bytes the encoder reported. */
  method EncodeDecode(m: ClientHostMessage, buf: array<u8>)
    returns (encoded: Result<nat, EncodingError>, decoded: Result<Decoded<ClientHostMessage>, DecodingError>)
    requires buf.Length >= 6
    modifies buf
    ensures encoded.Ok? && decoded == Ok(Decoded(encoded.value, m))
    ensures buf[..] == Splice(old(buf[..]), 0, MessageBytes(m))
  {
    MessageLength(m);
    encoded := EncodeMessage(m, buf, 0);
    var n := |MessageBytes(m)|;
    assert buf[..] == MessageBytes(m) + buf[n..];
    MessageRoundTrip(m, buf[n..]);
    decoded := DecodeMessage(buf[..]);
  }

  // ---------------------------------------------------------------------------
  // Decoders
  // ---------------------------------------------------------------------------

  function DecodeU8(bs: seq<u8>): (r: Result<Decoded<u8>, DecodingError>)
    ensures r.Ok? <==> |bs| >= 1
    ensures r.Ok? ==> r.value == Decoded(1, bs[0])
    ensures r.Err? ==> r.error == EndOfBytes
  {
    if |bs| < 1 then Err(EndOfBytes) else Ok(Decoded(1, bs[0]))
  }

  /** `bytes[0] as u32 | (bytes[1] as u32) << 8 | ...`: the four ORed
      fields occupy disjoint bits, so the OR is a sum. */
  function DecodeU32(bs: seq<u8>): (r: Result<Decoded<u32>, DecodingError>)
    ensures r.Ok? <==> |bs| >= 4
    ensures r.Ok? ==> r.value.used == 4
    ensures r.Err? ==> r.error == EndOfBytes
  {
    if |bs| < 4 then Err(EndOfBytes)
    else
      var x: u32 := bs[0] as int + bs[1] as int * 0x100 + bs[2] as int * 0x1_0000 + bs[3] as int * 0x100_0000;
      Ok(Decoded(4, x))
  }

  function DecodeState(bs: seq<u8>): (r: Result<Decoded<State>, DecodingError>)
    ensures r == Err(EndOfBytes) <==> |bs| == 0
    ensures r.Err? && r.error.UnexpectedByte? <==> |bs| >= 1 && bs[0] > 3
    ensures r.Err? && r.error.UnexpectedByte? ==> r.error.byte == bs[0]
    ensures r.Ok? ==> r.value.used == 1 && r.value.value.data == bs[0]
  {
    if |bs| < 1 then Err(EndOfBytes)
    else if bs[0] > 3 then Err(UnexpectedByte(bs[0]))
    else Ok(Decoded(1, State(bs[0])))
  }

  /** `State` then `u32` from what follows it. */
  function DecodeReading(bs: seq<u8>): (r: Result<Decoded<Reading>, DecodingError>)
    ensures r.Ok? <==> |bs| >= 5 && bs[0] <= 3
    ensures r.Ok? ==> r.value.used == 5
    ensures |bs| >= 1 && bs[0] > 3 ==> r == Err(UnexpectedByte(bs[0]))
    ensures (|bs| == 0 || bs[0] <= 3) && |bs| < 5 ==> r == Err(EndOfBytes)
  {
    var st :- DecodeState(bs);
    var t :- DecodeU32(bs[st.used..]);
    Ok(Decoded(st.used + t.used, Reading.Reading(st.value, t.value)))
  }

  /** The macro-generated dispatch on the tag: the variant's decoder on the
      bytes after the tag, or `UnexpectedByte` for an unknown tag. The count
      it returns excludes the tag. */
  function DecodePayload(tag: u8, payload: seq<u8>): (r: Result<Decoded<ClientHostMessage>, DecodingError>)
    ensures !(1 <= tag <= 4) ==> r == Err(UnexpectedByte(tag))
    ensures r.Ok? ==> Tag(r.value.value) == tag && r.value.used == |PayloadBytes(r.value.value)| <= |payload|
  {
    match tag
    case 1 =>
      var d :- DecodeReading(payload);
      Ok(Decoded(d.used, ClientHostMessage.Reading(d.value)))
    case 2 =>
      var d :- DecodeU32(payload);
      Ok(Decoded(d.used, FrequencyHertz(d.value)))
    case 3 =>
      var d :- DecodeU8(payload);
      Ok(Decoded(d.used, Reset(d.value)))
    case 4 =>
      var d :- DecodeU32(payload);
      Ok(Decoded(d.used, CurrentTime(d.value)))
    case _ => Err(UnexpectedByte(tag))
  }

  function DecodeMessage(bs: seq<u8>): (r: Result<Decoded<ClientHostMessage>, DecodingError>)
    ensures |bs| == 0 ==> r == Err(EndOfBytes)
    ensures |bs| >= 1 && !(1 <= bs[0] <= 4) ==> r == Err(UnexpectedByte(bs[0]))
    ensures r.Ok? ==> Tag(r.value.value) == bs[0]
    ensures r.Ok? ==> r.value.used == |MessageBytes(r.value.value)| <= |bs|
  {
    if |bs| < 1 then Err(EndOfBytes)
    else
      var d :- DecodePayload(bs[0], bs[1..]);
      Ok(Decoded(d.used + 1, d.value))
  }

  // ---------------------------------------------------------------------------
  // Round trips
  // ---------------------------------------------------------------------------

  lemma StateRoundTrip(s: State, rest: seq<u8>)
    ensures DecodeState(StateBytes(s) + rest) == Ok(Decoded(1, s))
  {
  }

  /** Every `State` is the one `State::new` builds from its two channels. */
  lemma StateFromChannels(s: State)
    ensures State.New(s.Channel1(), s.Channel2()) == s
  {
  }

  /** Splitting a `u32` into its four bytes and putting them back
      together gives it back. */
  lemma U32Recompose(x: u32)
    ensures x == x % 0x100 + x / 0x100 % 0x100 * 0x100
               + x / 0x1_0000 % 0x100 * 0x1_0000 + x / 0x100_0000 % 0x100 * 0x100_0000
  {
    var y1 := x / 0x100;
    var y2 := y1 / 0x100;
    assert x / 0x1_0000 == y2;
    assert x / 0x100_0000 == y2 / 0x100;
  }

  /** Putting four bytes together and splitting the result gives them back. */
  lemma U32Digits(b0: u8, b1: u8, b2: u8, b3: u8)
    ensures var x := b0 + b1 * 0x100 + b2 * 0x1_0000 + b3 * 0x100_0000;
            x % 0x100 == b0 && x / 0x100 % 0x100 == b1 &&
            x / 0x1_0000 % 0x100 == b2 && x / 0x100_0000 % 0x100 == b3
  {
    var x := b0 + b1 * 0x100 + b2 * 0x1_0000 + b3 * 0x100_0000;
    var y2 := b2 + b3 * 0x100;
    var y1 := b1 + y2 * 0x100;
    assert x == b0 + y1 * 0x100;
    assert x / 0x100 == y1;
    assert x / 0x1_0000 == y2;
  }

  lemma U32RoundTrip(x: u32, rest: seq<u8>)
    ensures DecodeU32(U32Bytes(x) + rest) == Ok(Decoded(4, x))
  {
    var bs := U32Bytes(x) + rest;
    assert bs[..4] == U32Bytes(x);
    U32Recompose(x);
  }

  /** The four bytes a `u32` is decoded from are that value's wire image. */
  lemma U32Canonical(bs: seq<u8>)
    requires |bs| >= 4
    ensures U32Bytes(DecodeU32(bs).value.value) == bs[..4]
  {
    U32Digits(bs[0], bs[1], bs[2], bs[3]);
  }

  lemma ReadingRoundTrip(rd: Reading, rest: seq<u8>)
    ensures DecodeReading(ReadingBytes(rd) + rest) == Ok(Decoded(5, rd))
  {
    var bs := ReadingBytes(rd) + rest;
    StateRoundTrip(rd.state, U32Bytes(rd.time) + rest);
    assert bs == StateBytes(rd.state) + (U32Bytes(rd.time) + rest);
    assert bs[1..] == U32Bytes(rd.time) + rest;
    U32RoundTrip(rd.time, rest);
  }

  lemma MessageRoundTrip(m: ClientHostMessage, rest: seq<u8>)
    ensures DecodeMessage(MessageBytes(m) + rest) == Ok(Decoded(|MessageBytes(m)|, m))
  {
    var bs := MessageBytes(m) + rest;
    assert bs[0] == Tag(m);
    assert bs[1..] == PayloadBytes(m) + rest;
    match m
    case Reading(rd) => ReadingRoundTrip(rd, rest);
    case FrequencyHertz(hz) => U32RoundTrip(hz, rest);
    case Reset(ch) =>
    case CurrentTime(t) => U32RoundTrip(t, rest);
  }

  /** The bytes a message is decoded from are that message's wire image:
      different byte strings never decode to the same message. */
  lemma MessageCanonical(bs: seq<u8>)
    requires DecodeMessage(bs).Ok?
    ensures bs[..DecodeMessage(bs).value.used] == MessageBytes(DecodeMessage(bs).value.value)
  {
    var m := DecodeMessage(bs).value.value;
    match m
    case Reading(rd) =>
      U32Canonical(bs[2..]);
    case FrequencyHertz(hz) =>
      U32Canonical(bs[1..]);
    case Reset(ch) =>
    case CurrentTime(t) =>
      U32Canonical(bs[1..]);
  }

  /** A proper prefix of a message's wire image decodes to `EndOfBytes`. */
  lemma PrefixIsEndOfBytes(m: ClientHostMessage, k: nat)
    requires k < |MessageBytes(m)|
    ensures DecodeMessage(MessageBytes(m)[..k]) == Err(EndOfBytes)
  {
    var bs := MessageBytes(m)[..k];
    if k > 0 {
      assert bs[0] == Tag(m);
      assert bs[1..] == PayloadBytes(m)[..k - 1];
    }
  }

  /** Conversely, `EndOfBytes` means the bytes are a proper prefix of some
      message's wire image: a partial message, never a corrupt one. */
  lemma EndOfBytesIsPrefix(bs: seq<u8>)
    requires DecodeMessage(bs) == Err(EndOfBytes)
    ensures exists m :: |bs| < |MessageBytes(m)| && bs == MessageBytes(m)[..|bs|]
  {
    var padded := bs + [1, 0, 0, 0, 0, 0];
    var m := DecodeMessage(padded).value.value;
    MessageCanonical(padded);
    assert |bs| < |MessageBytes(m)| && bs == MessageBytes(m)[..|bs|];
  }

  /** A decode that did not run out of bytes gives the same answer on any
      longer input: appending bytes never changes a success or a rejection. */
  lemma DecodeIgnoresMore(bs: seq<u8>, more: seq<u8>)
    requires DecodeMessage(bs) != Err(EndOfBytes)
    ensures DecodeMessage(bs + more) == DecodeMessage(bs)
  {
    var ext := bs + more;
    assert ext[0] == bs[0];
    assert ext[1..] == bs[1..] + more;
    if |bs| >= 2 {
      assert ext[1] == bs[1];
      assert ext[2..] == bs[2..] + more;
    }
  }
}
