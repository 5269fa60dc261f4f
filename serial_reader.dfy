/** The host side of host/src/serial_reader.rs: the byte accumulator that
    grows at the tail with what the serial port delivers, and the loop that
    drains whole messages from its head, resynchronising one byte at a time
    after a rejected byte. */
module SerialReader {
  import opened Bytes
  import opened Codec

  /** What a drain of the accumulator yields: the messages decoded, in
      order, and the bytes left for the next call. */
  datatype Drained = Drained(messages: seq<ClientHostMessage>, rest: seq<u8>)

  /** The specification of `decode_messages`: decode from the head; on
      success drop the bytes used and go on; on `EndOfBytes` stop; on
      `UnexpectedByte` drop one byte and go on. The rest it keeps is a suffix
      of the input that is a partial message. */
  function Drain(data: seq<u8>): (d: Drained)
    ensures |d.rest| <= |data|
    decreases |data|
  {
    match DecodeMessage(data)
    case Ok(Decoded(used, m)) =>
      var d := Drain(data[used..]);
      Drained([m] + d.messages, d.rest)
    case Err(EndOfBytes) => Drained([], data)
    case Err(UnexpectedByte(_)) => Drain(data[1..])
  }

  /** One step of `Drain` when the head decodes: the message, then the drain
      of what follows it. */
  lemma DrainDecoded(data: seq<u8>, used: nat, m: ClientHostMessage)
    requires DecodeMessage(data) == Ok(Decoded(used, m))
    ensures used <= |data|
    ensures Drain(data) == Drained([m] + Drain(data[used..]).messages, Drain(data[used..]).rest)
  {
  }

  /** One step of `Drain` when the head byte is rejected: it is dropped. */
  lemma DrainResync(data: seq<u8>, b: u8)
    requires DecodeMessage(data) == Err(UnexpectedByte(b))
    ensures |data| >= 1 && Drain(data) == Drain(data[1..])
  {
  }

  /** One step of `Drain` when the bytes run out: all of them are kept. */
  lemma DrainStops(data: seq<u8>)
    requires DecodeMessage(data) == Err(EndOfBytes)
    ensures Drain(data) == Drained([], data)
  {
  }

  /** What a drain keeps is a suffix of its input on which the decoder runs
      out of bytes: a partial message, waiting for the next read. */
  lemma {:induction false} DrainKeepsPartial(data: seq<u8>)
    ensures Drain(data).rest == data[|data| - |Drain(data).rest|..]
    ensures DecodeMessage(Drain(data).rest) == Err(EndOfBytes)
    decreases |data|
  {
    match DecodeMessage(data)
    case Ok(Decoded(used, m)) =>
      DrainDecoded(data, used, m);
      DrainKeepsPartial(data[used..]);
    case Err(EndOfBytes) =>
      DrainStops(data);
    case Err(UnexpectedByte(b)) =>
      DrainResync(data, b);
      DrainKeepsPartial(data[1..]);
  }

  /** `decode_messages`: the accumulator is passed in as `data0` and handed
      back, drained, as `data`. The arm for errors other than `EndOfBytes`
      and `UnexpectedByte` is never taken, since the codec has no others, so
      the result is always `Ok`. `steps` counts the loop's iterations. */
  method DecodeMessages(data0: seq<u8>)
    returns (res: Result<seq<ClientHostMessage>, DecodingError>, data: seq<u8>, ghost steps: nat)
    ensures res == Ok(Drain(data0).messages) && data == Drain(data0).rest
    ensures data == data0[|data0| - |data|..] && DecodeMessage(data) == Err(EndOfBytes)
    ensures steps <= |data0| + 1
  {
    DrainKeepsPartial(data0);
    var result := [];
    data := data0;
    steps := 0;
    while true
      invariant Drain(data0) == Drained(result + Drain(data).messages, Drain(data).rest)
      invariant steps + |data| <= |data0|
      decreases |data|
    {
      match DecodeMessage(data) {
        case Ok(Decoded(used, m)) =>
          DrainDecoded(data, used, m);
          AppendCons(result, m, Drain(data[used..]).messages);
          result := result + [m];
          data := data[used..];
        case Err(EndOfBytes) =>
          DrainStops(data);
          assert result + [] == result;
          break;
        case Err(UnexpectedByte(b)) =>
          DrainResync(data, b);
          data := data[1..];
      }
      steps := steps + 1;
    }
    steps := steps + 1;
    res := Ok(result);
  }

  /** The append step of `read_serial_port_data`: the `read_amount` bytes
      the port wrote into its scratch buffer are pushed onto the
      accumulator, in order. */
  method AppendRead(buf0: seq<u8>, internal: array<u8>, readAmount: nat) returns (buf: seq<u8>)
    requires readAmount <= internal.Length
    ensures buf == buf0 + internal[..readAmount]
  {
    buf := buf0;
    for i := 0 to readAmount
      invariant buf == buf0 + internal[..i]
    {
      buf := buf + [internal[i]];
    }
  }

  /** The wire image of a sequence of messages, one after another. */
  function Stream(ms: seq<ClientHostMessage>): seq<u8> {
    if ms == [] then [] else MessageBytes(ms[0]) + Stream(ms[1..])
  }

  /** Draining the concatenated wire images of `ms` followed by `tail`
      yields exactly `ms` and then whatever `tail` alone yields. */
  lemma {:induction false} DrainStream(ms: seq<ClientHostMessage>, tail: seq<u8>)
    ensures Drain(Stream(ms) + tail) == Drained(ms + Drain(tail).messages, Drain(tail).rest)
  {
    if ms == [] {
      assert Stream(ms) + tail == tail;
    } else {
      var m, later := ms[0], ms[1..];
      var rest := Stream(later) + tail;
      assert Stream(ms) + tail == MessageBytes(m) + rest;
      DrainEncoded(m, rest);
      DrainStream(later, tail);
      assert ms == [m] + later;
      ConsAppend(m, later, Drain(tail).messages);
    }
  }

  /** A whole message at the head is decoded and its bytes dropped. */
  lemma DrainEncoded(m: ClientHostMessage, rest: seq<u8>)
    ensures Drain(MessageBytes(m) + rest) == Drained([m] + Drain(rest).messages, Drain(rest).rest)
  {
    var data := MessageBytes(m) + rest;
    var n := |MessageBytes(m)|;
    MessageRoundTrip(m, rest);
    DrainDecoded(data, n, m);
    assert data[n..] == rest;
  }

  /** A stream holding only whole messages is drained to exactly those
      messages, in order, and leaves the accumulator empty. */
  lemma DrainWholeMessages(ms: seq<ClientHostMessage>)
    ensures Drain(Stream(ms)) == Drained(ms, [])
  {
    DrainStream(ms, []);
    assert Stream(ms) + [] == Stream(ms);
    assert DecodeMessage([]) == Err(EndOfBytes);
  }

  /** However the link splits the byte stream into reads, draining after
      each read yields the same messages, and keeps the same bytes, as
      draining the whole stream at once: the kept partial message is
      completed by the bytes that follow it. */
  lemma {:induction false} DrainChunked(a: seq<u8>, b: seq<u8>)
    ensures var first := Drain(a);
            var second := Drain(first.rest + b);
            Drain(a + b) == Drained(first.messages + second.messages, second.rest)
    decreases |a|
  {
    match DecodeMessage(a)
    case Ok(Decoded(used, m)) =>
      DecodeIgnoresMore(a, b);
      assert (a + b)[used..] == a[used..] + b;
      DrainDecoded(a, used, m);
      DrainDecoded(a + b, used, m);
      DrainChunked(a[used..], b);
      var first := Drain(a[used..]);
      var second := Drain(first.rest + b);
      ConsAppend(m, first.messages, second.messages);
    case Err(EndOfBytes) =>
      assert Drain(a) == Drained([], a);
    case Err(UnexpectedByte(b0)) =>
      DecodeIgnoresMore(a, b);
      assert (a + b)[1..] == a[1..] + b;
      DrainResync(a, b0);
      DrainResync(a + b, b0);
      DrainChunked(a[1..], b);
  }

  /** The bytes a drain keeps are fewer than one message: the accumulator
      stays bounded between reads. */
  lemma DrainKeepsLessThanAMessage(data: seq<u8>)
    ensures |Drain(data).rest| < 6
  {
    var rest := Drain(data).rest;
    DrainKeepsPartial(data);
    EndOfBytesIsPrefix(rest);
    var m :| |rest| < |MessageBytes(m)| && rest == MessageBytes(m)[..|rest|];
    MessageLength(m);
  }

  /** A corrupted 12-byte stream: the stray `0xFF` is not a tag and is
      dropped, then a `Reading` and a `FrequencyHertz` are decoded. The
      codec is little-endian, so the timestamp bytes `0, 0, 0, 100` are
      `100 << 24` and `0, 0x10, 0, 0` is 4096. */
  lemma ResyncExample()
    ensures Drain([0xFF, 1, 3, 0, 0, 0, 100, 2, 0, 0x10, 0, 0])
         == Drained([ClientHostMessage.Reading(Reading.New(100 * 0x100_0000, true, true)),
                     FrequencyHertz(4096)], [])
  {
    var data: seq<u8> := [0xFF, 1, 3, 0, 0, 0, 100, 2, 0, 0x10, 0, 0];
    var reading := ClientHostMessage.Reading(Reading.New(100 * 0x100_0000, true, true));
    var ms := [reading, FrequencyHertz(4096)];
    assert MessageBytes(reading) == [1, 3, 0, 0, 0, 100];
    assert MessageBytes(FrequencyHertz(4096)) == [2, 0, 0x10, 0, 0];
    assert Stream(ms) == MessageBytes(reading) + Stream([FrequencyHertz(4096)]);
    assert Stream([FrequencyHertz(4096)]) == MessageBytes(FrequencyHertz(4096)) + Stream([]);
    assert data[1..] == Stream(ms);
    DrainResync(data, 0xFF);
    DrainWholeMessages(ms);
  }
}
